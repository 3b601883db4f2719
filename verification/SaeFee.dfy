/** exec/sae.go and rpc/saefee.go: the base fee of a post-Helicon block, which no
    header carries, is read back off the settlement markers as execution had it. */
module SaeFee {
  import opened Bytes
  import SaeRing

  type Time(!new)
  type Config(==, !new)
  type Fee(==, !new)
  type Root(==, !new)

  /** A gas clock: when it is, how full it is, and the gas config it runs under. */
  datatype Clock = Clock(unix: nat, numerator: nat, excess: nat, config: Config)

  /** The ACP-194 markers a header republishes for the height it settles. */
  datatype Markers = Markers(height: nat, unix: nat, numerator: nat, excess: nat)

  /** A block with what execution learnt about it: limits are the transactions' gas
      limits, spent the gas each really used, opGas the end-of-block operations'. */
  datatype Block = Block(time: Time, config: Config, root: Root, gasUsed: nat, markers: Option<Markers>,
                         limits: seq<nat>, spent: seq<nat>, opGas: nat, post: Root)

  /** The clock operations, uninterpreted. */
  datatype Machine = Machine(before: (Clock, Time) -> Clock, after: (Clock, nat, Config) -> Clock, fee: Clock -> Fee,
                             seed: Block -> Clock)
  {
    /** A clock leaves a block under the config that block leaves behind; so does the
        one a synchronous block seeds. */
    ghost predicate Sane() {
      && (forall c, g, k :: after(c, g, k).config == k)
      && (forall b :: seed(b).config == b.config)
    }
  }

  function Sum(s: seq<nat>): nat {
    if s == [] then 0 else Sum(s[..|s| - 1]) + s[|s| - 1]
  }

  /** A chain whose block `last` is the last synchronous one. */
  datatype Chain = Chain(m: Machine, blocks: seq<Block>, last: nat)
  {
    ghost predicate Ok() { last < |blocks| && m.Sane() }

    /** The clock after executing block n, and as block n's fee is read. */
    function After(n: nat): Clock
      requires last <= n < |blocks|
      decreases n, 1
    {
      if n == last then m.seed(blocks[n]) else m.after(At(n), Gas(n), blocks[n].config)
    }

    function At(n: nat): Clock
      requires last < n < |blocks|
      decreases n, 0
    {
      m.before(After(n - 1), blocks[n].time)
    }

    /** What the clock ticks by: real transaction gas and operation gas. */
    function Gas(n: nat): nat
      requires n < |blocks|
    {
      blocks[n].opGas + Sum(blocks[n].spent)
    }

    /** The base fee execution used for block n. */
    function FeeOf(n: nat): Fee
      requires last < n < |blocks|
    {
      m.fee(At(n))
    }
  }

  lemma ConfigAfter(c: Chain, n: nat)
    requires c.Ok() && c.last <= n < |c.blocks|
    ensures c.After(n).config == c.blocks[n].config
  {
  }

  // ------------------------------------------------------- what execution checks

  /** Block n's own worst-case gas identity. */
  ghost predicate GasChecked(b: Block) { b.gasUsed == Sum(b.limits) + b.opGas && |b.limits| == |b.spent| }

  /** The post-execution root of height h: a synchronous block's header carries it. */
  function PostRoot(c: Chain, h: nat): Root
    requires h < |c.blocks|
  {
    if h <= c.last then c.blocks[h].root else c.blocks[h].post
  }

  /** Block n settles an executed height behind it with that height's root and clock. */
  ghost predicate SettledRight(c: Chain, n: nat)
    requires c.last < n < |c.blocks|
  {
    var b := c.blocks[n];
    && b.markers.Some? && c.last <= b.markers.value.height < n
    && PostRoot(c, b.markers.value.height) == b.root
    && FromMarkers(b.markers.value, c.blocks[b.markers.value.height].config) == c.After(b.markers.value.height)
  }

  function FromMarkers(k: Markers, config: Config): Clock { Clock(k.unix, k.numerator, k.excess, config) }

  ghost predicate Accepted(c: Chain) {
    forall n {:trigger SettledRight(c, n)} :: c.last < n < |c.blocks| ==> SettledRight(c, n) && GasChecked(c.blocks[n])
  }

  /** The height block n settles. */
  function Settles(c: Chain, n: nat): nat
    requires n < |c.blocks|
  {
    if c.blocks[n].markers.Some? then c.blocks[n].markers.value.height else 0
  }

  /** Settlement never goes back. */
  ghost predicate Monotone(c: Chain) {
    forall n {:trigger Forward(c, n)} :: c.last < n < |c.blocks| ==> Forward(c, n)
  }

  ghost predicate Forward(c: Chain, n: nat)
    requires c.last < n < |c.blocks|
  {
    n > c.last + 1 ==> Settles(c, n - 1) <= Settles(c, n)
  }

  /** No block settles a height the ring has dropped by then. */
  ghost predicate InWindow(c: Chain) {
    forall n {:trigger Recent(c, n)} :: c.last < n < |c.blocks| ==> Recent(c, n)
  }

  ghost predicate Recent(c: Chain, n: nat)
    requires n < |c.blocks|
  {
    !Aged(c, n, Settles(c, n))
  }

  method SumUp(s: seq<nat>) returns (n: nat)
    ensures n == Sum(s)
  {
    n := 0;
    for i := 0 to |s|
      invariant n == Sum(s[..i])
    {
      DropDrop(s, i);
      assert s[..i + 1][..i] == s[..i];
      n := n + s[i];
    }
    assert s[..|s|] == s;
  }

  /** checkSAEGasUsed */
  method CheckGasUsed(b: Block) returns (ok: bool)
    ensures ok <==> b.gasUsed == Sum(b.limits) + b.opGas
  {
    var want := SumUp(b.limits);
    ok := want + b.opGas == b.gasUsed;
  }

  type Slots = map<nat, SaeRing.Rec<Root, Clock>>

  /** At block n the ring no longer has the height. */
  predicate Aged(c: Chain, n: nat, h: nat) { c.last < h && h + SaeRing.Slots <= n }

  /** The ring once block n is in it: the records of the latest blocks above the
      boundary. */
  ghost predicate RingAt(c: Chain, n: nat, ring: Slots)
    requires c.last <= n < |c.blocks|
  {
    forall h: nat {:trigger SaeRing.Held(ring, h)} ::
      SaeRing.Held(ring, h) == if c.last < h <= n && !Aged(c, n, h) then Some(RecordOf(c, h)) else None
  }

  ghost function RecordOf(c: Chain, h: nat): SaeRing.Rec<Root, Clock>
    requires c.last < h < |c.blocks|
  {
    SaeRing.Rec(h, c.blocks[h].post, c.After(h))
  }

  lemma RingNext(c: Chain, n: nat, ring: Slots)
    requires c.last < n < |c.blocks| && RingAt(c, n - 1, ring)
    ensures RingAt(c, n, ring[n % SaeRing.Slots := RecordOf(c, n)])
  {
    var ring' := ring[n % SaeRing.Slots := RecordOf(c, n)];
    forall h: nat {:trigger SaeRing.Held(ring', h)}
      ensures SaeRing.Held(ring', h) == if c.last < h <= n && !Aged(c, n, h) then Some(RecordOf(c, h)) else None
    {
      SaeRing.HeldPut(ring, RecordOf(c, n), h);
      SaeRing.Turn(h, n);
      assert SaeRing.Held(ring, h) == if c.last < h <= n - 1 && !Aged(c, n - 1, h) then Some(RecordOf(c, h)) else None;
      SaeRing.Turn(n, h);
    }
  }

  /** postExecutionAt: from the ring, or for a synchronous block from its header; a later
      block the ring has dropped cannot be established. */
  method PostExecutionAt(c: Chain, n: nat, h: nat, ring: Slots) returns (r: Option<(Root, Clock)>)
    requires c.last <= h <= n < |c.blocks| && RingAt(c, n, ring)
    ensures r == if Aged(c, n, h) then None else Some((PostRoot(c, h), c.After(h)))
  {
    var got := SaeRing.Held(ring, h);
    if got.Some? { return Some((got.value.root, got.value.clock)); }
    if h > c.last { return None; }
    return Some((c.blocks[h].root, c.m.seed(c.blocks[h])));
  }

  /** checkSettled: three clock components are compared; the config is the settled
      header's on both sides, so the clocks are equal. The settled height is at or
      above the last synchronous block. Below the floor a bootstrapped node starts at
      there is nothing of its own to compare. */
  method CheckSettled(c: Chain, n: nat, ring: Slots, settledSeen: bool, settledHeight: nat, floor: Option<nat>)
    returns (ok: bool, height: nat)
    requires c.Ok() && c.last < n < |c.blocks| && RingAt(c, n, ring)
    requires c.blocks[n].markers.Some? && c.blocks[n].markers.value.height >= c.last
    ensures height == c.blocks[n].markers.value.height
    ensures ok <==> height < n && (settledSeen ==> settledHeight <= height)
                    && ((floor.Some? && height < floor.value) || (SettledRight(c, n) && !Aged(c, n, height)))
  {
    var s := c.blocks[n].markers.value;
    ok, height := false, s.height;
    if s.height >= n { return; }
    if settledSeen && s.height < settledHeight { return; }
    if floor.Some? && s.height < floor.value { return true, height; }
    var post := PostExecutionAt(c, n, s.height, ring);
    if post.None? { return; }
    var (root, clock) := post.value;
    if root != c.blocks[n].root { return; }
    var want := FromMarkers(s, c.blocks[s.height].config);
    if clock.unix != want.unix || clock.numerator != want.numerator || clock.excess != want.excess { return; }
    ConfigAfter(c, s.height);
    ok := true;
  }

  /** What the executor checks of block n. */
  ghost predicate Fine(c: Chain, n: nat)
    requires c.last < n < |c.blocks|
  {
    SettledRight(c, n) && GasChecked(c.blocks[n]) && Forward(c, n) && Recent(c, n)
  }

  ghost predicate AllFine(c: Chain) { forall k {:trigger Fine(c, k)} :: c.last < k < |c.blocks| ==> Fine(c, k) }

  lemma FineIsAccepted(c: Chain)
    requires AllFine(c)
    ensures Accepted(c) && Monotone(c) && InWindow(c)
  {
    assert forall k {:trigger SettledRight(c, k)} :: c.last < k < |c.blocks| ==> Fine(c, k);
    assert forall k {:trigger Forward(c, k)} :: c.last < k < |c.blocks| ==> Fine(c, k);
    assert forall k {:trigger Recent(c, k)} :: c.last < k < |c.blocks| ==> Fine(c, k);
  }

  lemma AcceptedIsFine(c: Chain)
    requires Accepted(c) && Monotone(c) && InWindow(c)
    ensures AllFine(c)
  {
    forall k {:trigger Fine(c, k)} | c.last < k < |c.blocks|
      ensures Fine(c, k)
    {
      assert SettledRight(c, k) && Forward(c, k) && Recent(c, k);
    }
  }

  /** executeSAEBlock: run the block on the clock, check its gas, keep its record, check
      the settlement. */
  method ExecuteOne(c: Chain, n: nat, clock: Clock, ring: Slots, seen: bool, height: nat)
    returns (ok: bool, clock': Clock, ring': Slots, height': nat)
    requires c.Ok() && c.last < n < |c.blocks| && Marked(c, n)
    requires clock == c.After(n - 1) && RingAt(c, n - 1, ring)
    requires seen == (n > c.last + 1) && (seen ==> height == Settles(c, n - 1))
    ensures ok <==> Fine(c, n)
    ensures ok ==> clock' == c.After(n) && RingAt(c, n, ring') && height' == Settles(c, n)
  {
    var b := c.blocks[n];
    var at := c.m.before(clock, b.time);
    var spent := SumUp(b.spent);
    clock', ring', height' := c.m.after(at, b.opGas + spent, b.config), ring, height;
    ok := CheckGasUsed(b);
    if !ok { return; }
    assert clock' == c.After(n) by { assert at == c.At(n) && b.opGas + spent == c.Gas(n); }
    RingNext(c, n, ring);
    ring' := ring[n % SaeRing.Slots := SaeRing.Rec(n, b.post, clock')];
    ok, height' := CheckSettled(c, n, ring', seen, height, None);
  }

  /** The header names a height to settle, and every transaction has a receipt. */
  predicate Marked(c: Chain, n: nat)
    requires n < |c.blocks|
  {
    var b := c.blocks[n];
    b.markers.Some? && b.markers.value.height >= c.last && |b.limits| == |b.spent|
  }

  /** The executor over every block above the boundary: execute, check the gas, keep
      the clock, check the settlement; stop at the first that fails. */
  method Execute(c: Chain) returns (ok: bool)
    requires c.Ok() && forall n {:trigger Marked(c, n)} :: c.last < n < |c.blocks| ==> Marked(c, n)
    ensures ok <==> Accepted(c) && Monotone(c) && InWindow(c)
  {
    if Accepted(c) && Monotone(c) && InWindow(c) { AcceptedIsFine(c); }
    var clock := c.m.seed(c.blocks[c.last]);
    var ring: Slots := map[];
    var seen, height := false, 0;
    for n := c.last + 1 to |c.blocks|
      invariant seen == (n > c.last + 1) && (seen ==> height == Settles(c, n - 1))
      invariant clock == c.After(n - 1) && RingAt(c, n - 1, ring)
      invariant forall k {:trigger Fine(c, k)} :: c.last < k < n ==> Fine(c, k)
    {
      ok, clock, ring, height := ExecuteOne(c, n, clock, ring, seen, height);
      if !ok { assert !Fine(c, n); return; }
      seen := true;
    }
    FineIsAccepted(c);
    return true;
  }

  // --------------------------------------------------------------- the reader

  /** gasConsumed: the worst case less the limits is the operations' gas, and the
      last receipt's cumulative gas is the transactions'. */
  method GasConsumed(b: Block) returns (used: Option<nat>)
    ensures GasChecked(b) ==> used == Some(b.opGas + Sum(b.spent))
  {
    var limits := SumUp(b.limits);
    if b.gasUsed < limits { return None; }
    var ops := b.gasUsed - limits;
    if |b.limits| == 0 { return Some(ops); }
    var cumulative := SumUp(b.spent);
    return Some(ops + cumulative);
  }

  /** saeWalk: from the settlement point of the lowest block wanted, the base fee of
      every block of the range as execution used it, and the clock it was read on. */
  method SaeWalk(c: Chain, from: nat, last: nat) returns (fees: Option<seq<Fee>>, clock: Option<Clock>)
    requires c.Ok() && Accepted(c) && c.last < from <= last < |c.blocks|
    ensures fees.Some? && |fees.value| == last - from + 1
    ensures forall i :: 0 <= i < |fees.value| ==> fees.value[i] == c.FeeOf(from + i)
    ensures clock == Some(c.At(last))
  {
    assert SettledRight(c, from);
    var s := c.blocks[from].markers.value;
    if s.height >= from { return None, None; }
    var now := FromMarkers(s, c.blocks[s.height].config);
    var out: seq<Fee> := [];
    var n := s.height + 1;
    while n <= last
      invariant s.height < n <= last && now == c.After(n - 1)
      invariant |out| == if n <= from then 0 else n - from
      invariant forall i :: 0 <= i < |out| ==> out[i] == c.FeeOf(from + i)
      decreases last - n
    {
      var b := c.blocks[n];
      now := c.m.before(now, b.time);
      if n >= from { out := out + [c.m.fee(now)]; }
      if n == last { break; }
      assert SettledRight(c, n);
      var used := GasConsumed(b);
      if used.None? { return None, None; }
      now := c.m.after(now, used.value, b.config);
      n := n + 1;
    }
    return Some(out), Some(now);
  }
}
