/** latest/run.go, the run iterator: it walks a run's blocks in order, rebuilding
    each key from its predecessor, restricted to [lo, hi). */
module LatestIter {
  import opened Bytes
  import opened LatestRun

  /** How many entries sort below k. */
  ghost function Below(es: seq<Entry>, k: bytes): (n: nat)
    ensures n <= |es|
  {
    if es == [] || !Less(es[0].key, k) then 0 else 1 + Below(es[1..], k)
  }

  lemma {:induction false} BelowSplits(es: seq<Entry>, k: bytes)
    requires Ascending(es)
    ensures forall j {:trigger Less(es[j].key, k)} :: 0 <= j < Below(es, k) ==> Less(es[j].key, k)
    ensures forall j {:trigger Less(es[j].key, k)} :: Below(es, k) <= j < |es| ==> !Less(es[j].key, k)
  {
    if es == [] {
    } else if Less(es[0].key, k) {
      BelowSplits(es[1..], k);
      assert forall j :: 1 <= j < |es| ==> es[j] == es[1..][j - 1];
    } else {
      forall j | 0 <= j < |es| ensures !Less(es[j].key, k) {
        LeqNotLess(k, es[0].key);
        LeqNotLess(k, es[j].key);
        if j > 0 { LeqTransitive(k, es[0].key, es[j].key); }
      }
    }
  }

  predicate InRange(k: bytes, lo: Option<bytes>, hi: Option<bytes>) {
    (lo.Some? ==> Leq(lo.value, k)) && (hi.Some? ==> Less(k, hi.value))
  }

  ghost predicate HasKey(items: seq<Entry>, k: bytes) {
    exists j :: 0 <= j < |items| && items[j].key == k
  }

  /** items is what a level holds inside [lo, hi), in ascending key order. */
  ghost predicate Lists(items: seq<Entry>, level: map<bytes, bytes>, lo: Option<bytes>, hi: Option<bytes>) {
    && Ascending(items)
    && (forall j :: 0 <= j < |items| ==> InLevel(items[j], level) && InRange(items[j].key, lo, hi))
    && (forall k {:trigger k in level} :: k in level && InRange(k, lo, hi) ==> HasKey(items, k))
  }

  ghost predicate InLevel(e: Entry, level: map<bytes, bytes>) {
    e.key in level && level[e.key] == e.value
  }

  /** A run's entries as a map. */
  ghost function AsMap(es: seq<Entry>): map<bytes, bytes> {
    if es == [] then map[] else AsMap(es[1..])[es[0].key := es[0].value]
  }

  lemma {:induction false} AsMapIs(es: seq<Entry>, k: bytes)
    ensures Lookup(es, k) == if k in AsMap(es) then Some(AsMap(es)[k]) else None
  {
    if es != [] { AsMapIs(es[1..], k); }
  }

  lemma {:induction false} LookupHasKey(es: seq<Entry>, k: bytes)
    requires Lookup(es, k).Some?
    ensures HasKey(es, k)
  {
    if es[0].key != k {
      LookupHasKey(es[1..], k);
      var j :| 0 <= j < |es[1..]| && es[1..][j].key == k;
      assert es[j + 1].key == k;
    } else {
      assert es[0].key == k;
    }
  }

  /** What the run iterator yields is the run's map inside the range. */
  lemma RunLists(es: seq<Entry>, lo: Option<bytes>, hi: Option<bytes>)
    requires Ascending(es)
    ensures Lists(es[From(es, lo)..To(es, lo, hi)], AsMap(es), lo, hi)
  {
    var items := es[From(es, lo)..To(es, lo, hi)];
    forall i, j {:trigger Less(items[i].key, items[j].key)} | 0 <= i < j < |items|
      ensures Less(items[i].key, items[j].key)
    {
      assert Less(es[From(es, lo) + i].key, es[From(es, lo) + j].key);
    }
    forall j | 0 <= j < |items| ensures InLevel(items[j], AsMap(es)) && InRange(items[j].key, lo, hi) {
      RunItem(es, lo, hi, From(es, lo) + j);
    }
    forall k {:trigger k in AsMap(es)} | k in AsMap(es) && InRange(k, lo, hi) ensures HasKey(items, k) {
      RunHas(es, lo, hi, k);
    }
  }

  lemma RunItem(es: seq<Entry>, lo: Option<bytes>, hi: Option<bytes>, j: nat)
    requires Ascending(es) && From(es, lo) <= j < To(es, lo, hi)
    ensures InLevel(es[j], AsMap(es)) && InRange(es[j].key, lo, hi)
  {
    LookupAt(es, es[j].key, j);
    AsMapIs(es, es[j].key);
    RangeAt(es, lo, hi, j);
  }

  lemma RunHas(es: seq<Entry>, lo: Option<bytes>, hi: Option<bytes>, k: bytes)
    requires Ascending(es) && k in AsMap(es) && InRange(k, lo, hi)
    ensures HasKey(es[From(es, lo)..To(es, lo, hi)], k)
  {
    AsMapIs(es, k);
    LookupHasKey(es, k);
    var j :| 0 <= j < |es| && es[j].key == k;
    RangeAt(es, lo, hi, j);
    assert es[From(es, lo)..To(es, lo, hi)][j - From(es, lo)].key == k;
  }

  lemma RangeAt(es: seq<Entry>, lo: Option<bytes>, hi: Option<bytes>, j: nat)
    requires Ascending(es) && j < |es|
    ensures InRange(es[j].key, lo, hi) <==> From(es, lo) <= j < To(es, lo, hi)
  {
    RangeCuts(es, lo, hi);
    if lo.Some? { LeqNotLess(lo.value, es[j].key); }
    if hi.Some? { assert Less(es[j].key, hi.value) || !Less(es[j].key, hi.value); }
  }

  /** The stretch of the list inside [lo, hi). */
  ghost function From(es: seq<Entry>, lo: Option<bytes>): (n: nat)
    ensures n <= |es|
  {
    if lo.Some? then Below(es, lo.value) else 0
  }

  ghost function To(es: seq<Entry>, lo: Option<bytes>, hi: Option<bytes>): (n: nat)
    ensures From(es, lo) <= n <= |es|
  {
    if hi.None? then |es|
    else if Below(es, hi.value) < From(es, lo) then From(es, lo) else Below(es, hi.value)
  }

  /** The key entry k of a block is coded against. */
  ghost function Before(chunk: seq<Entry>, k: nat): bytes
    requires k <= |chunk|
  {
    if k == 0 then [] else chunk[k - 1].key
  }

  /** Where entry k of a block starts in its bytes. */
  ghost function Offset(chunk: seq<Entry>, k: nat): (n: nat)
    requires k <= |chunk|
    ensures n >= 2
  {
    if k == 0 then 2 else
    Offset(chunk, k - 1) + CodeSize(Before(chunk, k - 1), chunk[k - 1])
  }

  ghost function CodeSize(prev: bytes, e: Entry): nat {
    3 + |e.key| - Lcp(prev, e.key) + |e.value|
  }

  lemma {:induction false} OffsetReads(chunk: seq<Entry>, k: nat, blk: bytes, used: nat)
    requires AllValid(chunk) && 2 <= used <= |blk| && blk[2..used] == FrontCode([], chunk) && k <= |chunk|
    ensures Offset(chunk, k) <= used && blk[Offset(chunk, k)..used] == FrontCode(Before(chunk, k), chunk[k..])
    decreases k
  {
    if k == 0 {
      assert chunk[0..] == chunk;
    } else {
      OffsetReads(chunk, k - 1, blk, used);
      OffsetStep(chunk, k - 1, blk, Offset(chunk, k - 1), used);
    }
  }

  /** The cursor reaches the used length exactly after the last entry. */
  lemma OffsetEnds(chunk: seq<Entry>, k: nat, blk: bytes, i: nat, used: nat)
    requires AllValid(chunk) && k <= |chunk| && i <= used <= |blk|
    requires blk[i..used] == FrontCode(Before(chunk, k), chunk[k..])
    ensures i == used <==> k == |chunk|
  {
    if k < |chunk| { CodeHead(Before(chunk, k), chunk[k..]); }
  }

  lemma OffsetAfter(chunk: seq<Entry>, k: nat, blk: bytes, used: nat)
    requires AllValid(chunk) && 2 <= used <= |blk| && blk[2..used] == FrontCode([], chunk) && k <= |chunk|
    ensures Offset(chunk, k) <= used && (Offset(chunk, k) == used <==> k == |chunk|)
  {
    OffsetReads(chunk, k, blk, used);
    OffsetEnds(chunk, k, blk, Offset(chunk, k), used);
  }

  lemma OffsetStep(chunk: seq<Entry>, k: nat, blk: bytes, i: nat, used: nat)
    requires AllValid(chunk) && k < |chunk| && i <= used <= |blk|
    requires blk[i..used] == FrontCode(Before(chunk, k), chunk[k..])
    ensures var i' := i + CodeSize(Before(chunk, k), chunk[k]);
            i' <= used && blk[i'..used] == FrontCode(Before(chunk, k + 1), chunk[k + 1..])
  {
    DropDrop(chunk, k);
    CursorMoves(blk, i, used, Before(chunk, k), chunk[k..]);
  }

  /** A cursor into a run: next is the index of the entry the next step decodes. */
  datatype Cursor = Cursor(b: int, i: nat, used: nat, blk: bytes, key: bytes)

  ghost predicate CursorInv(rep: Rep, c: Cursor, next: nat) {
    && -1 <= c.b && next <= |rep.es|
    && (c.i < c.used ==>
         && 0 <= c.b < |rep.starts| && (c.b + 1) * BlockSize <= |rep.run.mm| && c.blk == rep.run.Block(c.b)
         && rep.starts[c.b] <= next < Stop(rep.starts, |rep.es|, c.b)
         && c.used == UnLe(c.blk[..2])
         && c.i == Offset(Chunk(rep.es, rep.starts, c.b), next - rep.starts[c.b])
         && (next > rep.starts[c.b] ==> c.key == rep.es[next - 1].key))
    && (c.i >= c.used ==> next == if c.b + 1 < |rep.starts| then rep.starts[c.b + 1] else |rep.es|)
  }

  /** A cursor that is where it claims to be. */
  datatype Spot = Spot(rep: Rep, c: Cursor, next: nat)

  type At = s: Spot | CursorInv(s.rep, s.c, s.next)
    ghost witness Spot(Layout(Run([], [], 0, 0, []), [], []), Cursor(-1, 0, 0, [], []), 0)

  lemma BlockFacts(rep: Rep, b: nat, blk: bytes)
    requires b < |rep.starts| && (b + 1) * BlockSize <= |rep.run.mm| && blk == rep.run.Block(b)
    ensures var chunk := Chunk(rep.es, rep.starts, b);
            && AllValid(chunk) && chunk != [] && 2 <= UnLe(blk[..2]) <= |blk|
            && blk[2..UnLe(blk[..2])] == FrontCode([], chunk)
  {
    assert BlockStored(rep.run.mm, rep.es, rep.starts, b);
    BlockBody(Chunk(rep.es, rep.starts, b));
  }

  lemma EnterBlock(rep: Rep, b: nat, key: bytes)
    requires b < |rep.starts|
    ensures (b + 1) * BlockSize <= |rep.run.mm|
    ensures var blk := rep.run.Block(b); var used := UnLe(blk[..2]);
            used > 2 && CursorInv(rep, Cursor(b, 2, used, blk, key), rep.starts[b])
  {
    assert BlockStored(rep.run.mm, rep.es, rep.starts, b);
    var blk, chunk := rep.run.Block(b), Chunk(rep.es, rep.starts, b);
    BlockFacts(rep, b, blk);
    assert chunk[0..] == chunk;
    OffsetEnds(chunk, 0, blk, 2, UnLe(blk[..2]));
  }

  lemma ChunkAt(es: seq<Entry>, starts: seq<nat>, b: nat, next: nat)
    requires Tiles(starts, |es|) && b < |starts| && starts[b] <= next < Stop(starts, |es|, b)
    ensures var chunk, k := Chunk(es, starts, b), next - starts[b];
            k < |chunk| && chunk[k] == es[next] && (k > 0 ==> chunk[k - 1] == es[next - 1])
  {
  }

  /** What the cursor reads there: entry k of a block's entries. */
  lemma StepReads(s: At) returns (chunk: seq<Entry>, k: nat)
    requires s.c.i < s.c.used
    ensures 0 <= s.c.b < |s.rep.starts| && chunk == Chunk(s.rep.es, s.rep.starts, s.c.b)
    ensures k == s.next - s.rep.starts[s.c.b]
    ensures s.next < |s.rep.es| && k < |chunk| && chunk[k] == s.rep.es[s.next] && s.c.i == Offset(chunk, k)
    ensures k > 0 ==> Before(chunk, k) == s.c.key
    ensures AllValid(chunk) && 2 <= s.c.used <= |s.c.blk| && s.c.blk[2..s.c.used] == FrontCode([], chunk)
  {
    chunk, k := CursorReads(s.rep, s.c, s.next);
  }

  lemma CursorReads(rep: Rep, c: Cursor, next: nat) returns (chunk: seq<Entry>, k: nat)
    requires CursorInv(rep, c, next) && c.i < c.used
    ensures 0 <= c.b < |rep.starts| && chunk == Chunk(rep.es, rep.starts, c.b) && k == next - rep.starts[c.b]
    ensures next < |rep.es| && k < |chunk| && chunk[k] == rep.es[next] && c.i == Offset(chunk, k)
    ensures k > 0 ==> Before(chunk, k) == c.key
    ensures AllValid(chunk) && 2 <= c.used <= |c.blk| && c.blk[2..c.used] == FrontCode([], chunk)
  {
    BlockFacts(rep, c.b, c.blk);
    ChunkAt(rep.es, rep.starts, c.b, next);
    chunk, k := Chunk(rep.es, rep.starts, c.b), next - rep.starts[c.b];
  }

  lemma StepMoves(rep: Rep, c: Cursor, next: nat, chunk: seq<Entry>, k: nat)
    requires CursorInv(rep, c, next) && c.i < c.used
    requires chunk == Chunk(rep.es, rep.starts, c.b) && k == next - rep.starts[c.b] && k < |chunk|
    requires Offset(chunk, k + 1) <= c.used && (Offset(chunk, k + 1) == c.used <==> k + 1 == |chunk|)
    requires chunk[k] == rep.es[next]
    ensures CursorInv(rep, Cursor(c.b, Offset(chunk, k + 1), c.used, c.blk, chunk[k].key), next + 1)
  {
  }

  /** The cursor after reading the entry it is at. */
  lemma StepTo(s: At, chunk: seq<Entry>, k: nat) returns (s': At)
    requires s.c.i < s.c.used
    requires 0 <= s.c.b < |s.rep.starts| && chunk == Chunk(s.rep.es, s.rep.starts, s.c.b)
    requires k == s.next - s.rep.starts[s.c.b]
    requires s.next < |s.rep.es| && k < |chunk| && chunk[k] == s.rep.es[s.next]
    requires AllValid(chunk) && 2 <= s.c.used <= |s.c.blk| && s.c.blk[2..s.c.used] == FrontCode([], chunk)
    ensures s'.rep == s.rep && s'.next == s.next + 1
    ensures s'.c == Cursor(s.c.b, Offset(chunk, k + 1), s.c.used, s.c.blk, chunk[k].key)
  {
    OffsetAfter(chunk, k + 1, s.c.blk, s.c.used);
    StepMoves(s.rep, s.c, s.next, chunk, k);
    s' := Spot(s.rep, Cursor(s.c.b, Offset(chunk, k + 1), s.c.used, s.c.blk, chunk[k].key), s.next + 1);
  }

  /** The entry under the cursor: its key is rebuilt on the last one. */
  method Decode(blk: bytes, i: nat, used: nat, last: bytes, ghost chunk: seq<Entry>, ghost k: nat)
    returns (key: bytes, val: bytes, i': nat)
    requires AllValid(chunk) && k < |chunk| && 2 <= i < used <= |blk|
    requires blk[2..used] == FrontCode([], chunk) && i == Offset(chunk, k)
    requires k > 0 ==> Before(chunk, k) == last
    ensures key == chunk[k].key && val == chunk[k].value && i' == Offset(chunk, k + 1)
  {
    OffsetReads(chunk, k, blk, used);
    var sh, suf, value, i'' := ReadEntry(blk, i, used, Before(chunk, k), chunk[k..]);
    Rebuild(Before(chunk, k), chunk[k].key, last);
    key, val, i' := last[..sh] + suf, value, i'';
  }

  /** A shared prefix of the last key and the stored suffix make the key. */
  lemma Rebuild(prev: bytes, e: bytes, last: bytes)
    requires prev == last || prev == []
    ensures var sh := Lcp(prev, e); sh <= |last| && last[..sh] + e[sh..] == e
  {
    var sh := Lcp(prev, e);
    assert last[..sh] == e[..sh];
  }

  /** The loop of step: move to the next block that has an entry left. */
  method Fill(c: Cursor, r: Run, ghost s: At) returns (c': Cursor, ghost s': At)
    requires r == s.rep.run && c == s.c
    ensures c' == s'.c && s'.rep == s.rep && s'.next == s.next
    ensures c'.i < c'.used <==> s.next < |s.rep.es|
  {
    c', s' := c, s;
    while c'.i >= c'.used
      invariant c' == s'.c && s'.rep == s.rep && s'.next == s.next
      decreases r.nblk - c'.b, c'.used - c'.i
    {
      c' := c'.(b := c'.b + 1);
      if c'.b >= r.nblk {
        s' := Spot(s.rep, c', s.next);
        return;
      }
      EnterBlock(s.rep, c'.b, c'.key);
      var blk := r.Block(c'.b);
      c' := c'.(i := 2, used := UnLe(blk[..2]), blk := blk);
      s' := Spot(s.rep, c', s.next);
    }
  }

  /** step decodes one entry, whatever the range. */
  method Step(c: Cursor, r: Run, ghost s: At) returns (ok: bool, c': Cursor, val: bytes, ghost s': At)
    requires r == s.rep.run && c == s.c
    ensures c' == s'.c && s'.rep == s.rep
    ensures ok == (s.next < |s.rep.es|)
    ensures s'.next == if ok then s.next + 1 else s.next
    ensures ok ==> c'.key == s.rep.es[s.next].key && val == s.rep.es[s.next].value
  {
    c', s' := Fill(c, r, s);
    ok, val := c'.i < c'.used, [];
    if !ok { return; }
    ghost var chunk, k := StepReads(s');
    s' := StepTo(s', chunk, k);
    var key, value, i := Decode(c'.blk, c'.i, c'.used, c'.key, chunk, k);
    c', val := Cursor(c'.b, i, c'.used, c'.blk, key), value;
  }

  /** The part of Next below lo: the entries before the range are stepped over. */
  method Skip(c: Cursor, lo: Option<bytes>, r: Run, ghost s: At, ghost from: nat)
    returns (ok: bool, c': Cursor, val: bytes, ghost s': At)
    requires r == s.rep.run && c == s.c && s.next <= from <= |s.rep.es|
    requires if lo.Some? then LoCuts(s.rep.es, from, lo.value) else s.next == from
    ensures c' == s'.c && s'.rep == s.rep
    ensures ok == (from < |s.rep.es|)
    ensures s'.next == if ok then from + 1 else from
    ensures ok ==> c'.key == s.rep.es[from].key && val == s.rep.es[from].value
  {
    ghost var n, es := s.next, s.rep.es;
    ok, c', val, s' := Step(c, r, s);
    while ok && lo.Some? && Less(c'.key, lo.value)
      invariant n <= from && ok == (n < |es|)
      invariant c' == s'.c && s'.rep == s.rep && s'.next == if ok then n + 1 else n
      invariant ok ==> c'.key == es[n].key && val == es[n].value
      invariant lo.None? ==> n == from
      decreases |es| - n, ok
    {
      BelowFrom(es, from, lo.value, n);
      n := n + 1;
      assert s'.next == n && s'.rep.es == es;
      ok, c', val, s' := Step(c', r, s');
    }
    if ok && lo.Some? { AtFrom(es, from, lo.value, n); }
  }

  lemma BelowFrom(es: seq<Entry>, from: nat, lo: bytes, pos: nat)
    requires from <= |es| && LoCuts(es, from, lo) && pos < |es| && Less(es[pos].key, lo)
    ensures pos < from
  {
  }

  lemma AtFrom(es: seq<Entry>, from: nat, lo: bytes, pos: nat)
    requires from <= |es| && LoCuts(es, from, lo) && pos < |es| && !Less(es[pos].key, lo)
    ensures pos >= from
  {
  }

  lemma InsideHi(es: seq<Entry>, from: nat, n: nat, hi: Option<bytes>, pos: nat)
    requires from + n <= |es| && HiCuts(es, from, n, hi) && from <= pos < |es|
    requires hi.Some? ==> Less(es[pos].key, hi.value)
    ensures pos < from + n
  {
  }

  /** Next on values: pos is the entry to yield if it is still below hi. */
  method Advance(c: Cursor, lo: Option<bytes>, hi: Option<bytes>, r: Run, ghost s: At, ghost pos: nat, ghost from: nat,
                 ghost n: nat)
    returns (ok: bool, c': Cursor, val: bytes, ghost s': At)
    requires r == s.rep.run && c == s.c && s.next <= pos <= |s.rep.es| && from <= pos
    requires if lo.Some? then LoCuts(s.rep.es, pos, lo.value) else s.next == pos
    requires from + n <= |s.rep.es| && HiCuts(s.rep.es, from, n, hi)
    ensures c' == s'.c && s'.rep == s.rep
    ensures ok == (pos < from + n)
    ensures s'.next == if ok then pos + 1 else |s.rep.es|
    ensures ok ==> c'.key == s.rep.es[pos].key && val == s.rep.es[pos].value
  {
    ok, c', val, s' := Skip(c, lo, r, s, pos);
    if ok && hi.Some? && !Less(c'.key, hi.value) {
      c' := c'.(b := r.nblk, i := 0, used := 0);
      s' := Spot(s.rep, c', |s.rep.es|);
      ok := false;
    } else if ok {
      InsideHi(s.rep.es, from, n, hi, pos);
    }
  }

  /** Where an iterator is: before its first item, on one, or past the last. */
  ghost predicate MovingAt(es: seq<Entry>, items: seq<Entry>, from: nat, lo: Option<bytes>, key: bytes, val: bytes,
                           next: nat, cur: int)
    requires from + |items| <= |es|
  {
    && -1 <= cur <= |items|
    && (lo.Some? ==> cur == -1 && next <= from && LoCuts(es, from, lo.value))
    && (lo.None? ==> next == if cur < |items| then from + cur + 1 else |es|)
    && (0 <= cur < |items| ==> key == items[cur].key && val == items[cur].value)
  }

  lemma MovesOn(es: seq<Entry>, items: seq<Entry>, from: nat, key: bytes, val: bytes, next: nat, cur: nat, pos: nat,
                ok: bool)
    requires from + |items| <= |es| && (forall j :: 0 <= j < |items| ==> items[j] == es[from + j])
    requires cur <= |items| && (cur < |items| ==> pos == from + cur) && ok == (cur < |items|)
    requires next == if ok then pos + 1 else |es|
    requires ok ==> key == es[pos].key && val == es[pos].value
    ensures MovingAt(es, items, from, None, key, val, next, cur)
  {
  }

  class RunIter {
    const r: Run
    var lo: Option<bytes>
    const hi: Option<bytes>
    var c: Cursor // block, offset in it, its used length and bytes, the last key
    var val: bytes
    ghost const rep: Rep
    ghost const items: seq<Entry> // what the iterator yields, in order
    ghost const from: nat
    ghost var s: At
    ghost var cur: int // the index in items of the entry under the iterator

    /** What never changes: the stretch of the run that is yielded. */
    ghost predicate Fixed() {
      && r == rep.run && from + |items| <= |rep.es|
      && (forall j :: 0 <= j < |items| ==> items[j] == rep.es[from + j])
      && HiCuts(rep.es, from, |items|, hi)
    }

    ghost predicate Moving()
      reads this
      requires Fixed()
    {
      c == s.c && s.rep == rep && MovingAt(rep.es, items, from, lo, c.key, val, s.next, cur)
    }

    constructor (r: Run, lo: Option<bytes>, hi: Option<bytes>, b: int, ghost rep: Rep)
      requires r == rep.run && -1 <= b
      requires (if b + 1 < r.nblk then rep.starts[b + 1] else |rep.es|) <= From(rep.es, lo)
      requires lo.None? ==> b == -1
      ensures Fixed() && Moving() && cur == -1
      ensures this.rep == rep && items == rep.es[From(rep.es, lo)..To(rep.es, lo, hi)]
    {
      this.r, this.lo, this.hi, this.rep := r, lo, hi, rep;
      c, val := Cursor(b, 0, 0, [], []), [];
      ghost var next := if b + 1 < r.nblk then rep.starts[b + 1] else |rep.es|;
      from, items := From(rep.es, lo), rep.es[From(rep.es, lo)..To(rep.es, lo, hi)];
      s, cur := Spot(rep, Cursor(b, 0, 0, [], []), next), -1;
      RangeCuts(rep.es, lo, hi);
    }

    /** Next yields the items one by one and then stays at the end. */
    method Next() returns (ok: bool)
      requires Fixed() && Moving()
      modifies this
      ensures Moving()
      ensures cur == if old(cur) < |items| then old(cur) + 1 else |items|
      ensures ok == (cur < |items|)
    {
      ghost var pos := if cur < |items| then from + cur + 1 else |rep.es|;
      var c', val';
      ghost var s': At;
      ok, c', val', s' := Advance(c, lo, hi, r, s, pos, from, |items|);
      ghost var cur' := if cur < |items| then cur + 1 else cur;
      MovesOn(rep.es, items, from, c'.key, val', s'.next, cur', pos, ok);
      lo, c, val, s, cur := None, c', val', s', cur';
    }
  }

  /** Iter: start at the block seek finds for lo, so the entries before it are
      never decoded. */
  method NewRunIter(r: Run, lo: Option<bytes>, hi: Option<bytes>, ghost rep: Rep) returns (it: RunIter)
    requires r == rep.run
    ensures fresh(it) && it.Fixed() && it.Moving() && it.cur == -1
    ensures it.rep == rep && it.items == rep.es[From(rep.es, lo)..To(rep.es, lo, hi)]
  {
    var b := -1;
    if lo.Some? {
      var k := Seek(r, lo.value, rep.es, rep.starts);
      SeekStartsEarly(rep.es, rep.starts, lo.value, k);
      if k > 0 { b := k - 1; }
    }
    it := new RunIter(r, lo, hi, b, rep);
  }

  /** Nothing at or above lo lies before the block seek finds. */
  lemma SeekStartsEarly(es: seq<Entry>, starts: seq<nat>, lo: bytes, k: int)
    requires Ascending(es) && Tiles(starts, |es|) && IsSeek(es, starts, lo, k)
    ensures k > 0 ==> starts[k] <= Below(es, lo)
  {
    BelowSplits(es, lo);
    if k > 0 {
      var last := es[starts[k] - 1].key;
      LeqLessTransitive(last, es[starts[k]].key, lo);
    }
  }

  lemma RangeCuts(es: seq<Entry>, lo: Option<bytes>, hi: Option<bytes>)
    requires Ascending(es)
    ensures lo.Some? ==> LoCuts(es, From(es, lo), lo.value)
    ensures HiCuts(es, From(es, lo), To(es, lo, hi) - From(es, lo), hi)
  {
    if lo.Some? { BelowSplits(es, lo.value); }
    if hi.Some? { BelowSplits(es, hi.value); }
  }

  ghost predicate LoCuts(es: seq<Entry>, from: nat, lo: bytes)
    requires from <= |es|
  {
    && (forall j {:trigger Less(es[j].key, lo)} :: 0 <= j < from ==> Less(es[j].key, lo))
    && (forall j {:trigger Less(es[j].key, lo)} :: from <= j < |es| ==> !Less(es[j].key, lo))
  }

  ghost predicate HiCuts(es: seq<Entry>, from: nat, n: nat, hi: Option<bytes>)
    requires from + n <= |es|
  {
    if hi.None? then from + n == |es| else
    && (forall j {:trigger Less(es[j].key, hi.value)} :: from <= j < from + n ==> Less(es[j].key, hi.value))
    && (forall j {:trigger Less(es[j].key, hi.value)} :: from + n <= j < |es| ==> !Less(es[j].key, hi.value))
  }
}
