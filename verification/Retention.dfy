/** exec/executor.go and fetch/window.go together: the containers that reconcile and
    bisect read a second time are still in the queue when they ask. */
module Retention {
  import opened Bytes
  import FetchQueue
  import Executor

  const Buffered: nat := 512

  /** The prefetch pipeline of Run, as how many blocks sit in each stage: done were
      received by the executor, the others follow it in height order. */
  datatype Pipe = Pipe(done: nat, pf: nat, forwarder: nat, order: nat, dispatcher: nat, fetched: nat, reader: nat)
  {
    /** The highest height asked of the queue. */
    function Last(): nat { done + pf + forwarder + order + dispatcher + fetched + reader }

    predicate Bounded() {
      pf <= Buffered && order <= Buffered && fetched <= Buffered && forwarder <= 1 && dispatcher <= 1 && reader <= 1
    }
  }

  datatype Step = Read | PutFetched | TakeFetched | PutOrder | TakeOrder | PutReady | Receive

  /** One move of one goroutine, when its channel lets it. */
  function Move(p: Pipe, s: Step): Option<Pipe> {
    match s
    case Read => if p.reader == 0 then Some(p.(reader := 1)) else None
    case PutFetched =>
      if p.reader == 1 && p.fetched < Buffered then Some(p.(reader := 0, fetched := p.fetched + 1)) else None
    case TakeFetched =>
      if p.fetched > 0 && p.dispatcher == 0 then Some(p.(fetched := p.fetched - 1, dispatcher := 1)) else None
    case PutOrder =>
      if p.dispatcher == 1 && p.order < Buffered then Some(p.(dispatcher := 0, order := p.order + 1)) else None
    case TakeOrder => if p.order > 0 && p.forwarder == 0 then Some(p.(order := p.order - 1, forwarder := 1)) else None
    case PutReady => if p.forwarder == 1 && p.pf < Buffered then Some(p.(forwarder := 0, pf := p.pf + 1)) else None
    case Receive => if p.pf > 0 then Some(p.(pf := p.pf - 1, done := p.done + 1)) else None
  }

  /** Any interleaving of moves; a move that cannot be made waits. */
  function After(p: Pipe, run: seq<Step>): Pipe
    decreases |run|
  {
    if run == [] then p else
    match Move(p, run[0]) case None => After(p, run[1..]) case Some(q) => After(q, run[1..])
  }

  /** Three channels and three hands. */
  const Depth: nat := 3 * Buffered + 3

  lemma {:induction false} PipeBounded(p: Pipe, run: seq<Step>)
    requires p.Bounded()
    ensures var q := After(p, run); q.Bounded() && p.done <= q.done && p.Last() <= q.Last()
    decreases |run|
  {
    if run != [] {
      match Move(p, run[0]) {
        case None => PipeBounded(p, run[1..]);
        case Some(q) => PipeBounded(q, run[1..]);
      }
    }
  }

  /** The queue is never asked for more than Depth heights past the executor. */
  lemma ReadAhead(start: nat, run: seq<Step>)
    ensures var q := After(Pipe(start, 0, 0, 0, 0, 0, 0), run); start <= q.done <= q.Last() <= q.done + Depth
  {
    PipeBounded(Pipe(start, 0, 0, 0, 0, 0, 0), run);
  }

  /** bisect: a batch that ends at the block just received starts at most
      commitEvery back, and all of it is still held. */
  lemma BisectFinds(start: nat, run: seq<Step>, from: nat, taken: seq<FetchQueue.Item>, consumed: int, commitEvery: nat,
                    i: nat)
    requires var q := After(Pipe(start, 0, 0, 0, 0, 0, 0), run);
             && q.done < i + commitEvery && i <= q.done && consumed <= q.Last() && from <= i && q.done < from + |taken|
    requires commitEvery + Depth <= FetchQueue.KeepBehind
    ensures FetchQueue.Reading(taken, from, i, consumed) == FetchQueue.Got(taken[i - from].raw)
  {
    ReadAhead(start, run);
  }

  lemma {:induction false} AfterConcat(p: Pipe, a: seq<Step>, b: seq<Step>)
    ensures After(p, a + b) == After(After(p, a), b)
    decreases |a|
  {
    if a == [] {
      assert a + b == b;
    } else {
      TailConcat(a, b);
      match Move(p, a[0]) {
        case None => AfterConcat(p, a[1..], b);
        case Some(q) => AfterConcat(q, a[1..], b);
      }
    }
  }

  ghost predicate Reach(p: Pipe, q: Pipe) { exists run :: After(p, run) == q }

  lemma Then(p: Pipe, q: Pipe, s: Step, r: Pipe)
    requires Reach(p, q) && Move(q, s) == Some(r)
    ensures Reach(p, r)
  {
    var run :| After(p, run) == q;
    AfterConcat(p, run, [s]);
    assert After(r, []) == r && After(q, [s]) == After(r, [s][1..]);
    assert After(p, run + [s]) == r;
  }

  lemma {:induction false} Executes(start: nat, n: nat)
    ensures Reach(Pipe(start, 0, 0, 0, 0, 0, 0), Pipe(start + n, 0, 0, 0, 0, 0, 0))
  {
    var p := Pipe(start, 0, 0, 0, 0, 0, 0);
    if n == 0 {
      assert After(p, []) == p;
    } else {
      var d := start + n - 1;
      Executes(start, n - 1);
      ToReady(p, d, 0);
      Then(p, Pipe(d, 1, 0, 0, 0, 0, 0), Receive, Pipe(d + 1, 0, 0, 0, 0, 0, 0));
    }
  }

  lemma ToReady(p: Pipe, d: nat, pf: nat)
    requires Reach(p, Pipe(d, pf, 0, 0, 0, 0, 0)) && pf < Buffered
    ensures Reach(p, Pipe(d, pf + 1, 0, 0, 0, 0, 0))
  {
    ToForwarder(p, d, pf);
    Then(p, Pipe(d, pf, 1, 0, 0, 0, 0), PutReady, Pipe(d, pf + 1, 0, 0, 0, 0, 0));
  }

  lemma ToForwarder(p: Pipe, d: nat, pf: nat)
    requires Reach(p, Pipe(d, pf, 0, 0, 0, 0, 0))
    ensures Reach(p, Pipe(d, pf, 1, 0, 0, 0, 0))
  {
    ToOrder(p, d, pf, 0, 0);
    Then(p, Pipe(d, pf, 0, 1, 0, 0, 0), TakeOrder, Pipe(d, pf, 1, 0, 0, 0, 0));
  }

  lemma ToOrder(p: Pipe, d: nat, pf: nat, f: nat, order: nat)
    requires Reach(p, Pipe(d, pf, f, order, 0, 0, 0)) && order < Buffered
    ensures Reach(p, Pipe(d, pf, f, order + 1, 0, 0, 0))
  {
    ToDispatcher(p, d, pf, f, order);
    Then(p, Pipe(d, pf, f, order, 1, 0, 0), PutOrder, Pipe(d, pf, f, order + 1, 0, 0, 0));
  }

  lemma ToDispatcher(p: Pipe, d: nat, pf: nat, f: nat, order: nat)
    requires Reach(p, Pipe(d, pf, f, order, 0, 0, 0))
    ensures Reach(p, Pipe(d, pf, f, order, 1, 0, 0))
  {
    ToFetched(p, d, pf, f, order, 0, 0);
    Then(p, Pipe(d, pf, f, order, 0, 1, 0), TakeFetched, Pipe(d, pf, f, order, 1, 0, 0));
  }

  lemma ToFetched(p: Pipe, d: nat, pf: nat, f: nat, order: nat, x: nat, fetched: nat)
    requires Reach(p, Pipe(d, pf, f, order, x, fetched, 0)) && fetched < Buffered
    ensures Reach(p, Pipe(d, pf, f, order, x, fetched + 1, 0))
  {
    Then(p, Pipe(d, pf, f, order, x, fetched, 0), Read, Pipe(d, pf, f, order, x, fetched, 1));
    Then(p, Pipe(d, pf, f, order, x, fetched, 1), PutFetched, Pipe(d, pf, f, order, x, fetched + 1, 0));
  }

  lemma {:induction false} FillReady(p: Pipe, d: nat, n: nat)
    requires Reach(p, Pipe(d, 0, 0, 0, 0, 0, 0)) && n <= Buffered
    ensures Reach(p, Pipe(d, n, 0, 0, 0, 0, 0))
  {
    if n > 0 { FillReady(p, d, n - 1); ToReady(p, d, n - 1); }
  }

  lemma {:induction false} FillOrder(p: Pipe, d: nat, pf: nat, f: nat, n: nat)
    requires Reach(p, Pipe(d, pf, f, 0, 0, 0, 0)) && n <= Buffered
    ensures Reach(p, Pipe(d, pf, f, n, 0, 0, 0))
  {
    if n > 0 { FillOrder(p, d, pf, f, n - 1); ToOrder(p, d, pf, f, n - 1); }
  }

  lemma {:induction false} FillFetched(p: Pipe, d: nat, pf: nat, f: nat, order: nat, x: nat, n: nat)
    requires Reach(p, Pipe(d, pf, f, order, x, 0, 0)) && n <= Buffered
    ensures Reach(p, Pipe(d, pf, f, order, x, n, 0))
  {
    if n > 0 { FillFetched(p, d, pf, f, order, x, n - 1); ToFetched(p, d, pf, f, order, x, n - 1); }
  }

  /** A pipeline can be full at any height. */
  lemma CanFill(start: nat, n: nat)
    ensures Reach(Pipe(start, 0, 0, 0, 0, 0, 0), Pipe(start + n, Buffered, 1, Buffered, 1, Buffered, 1))
  {
    var p, d := Pipe(start, 0, 0, 0, 0, 0, 0), start + n;
    Executes(start, n);
    FillReady(p, d, Buffered);
    ToForwarder(p, d, Buffered);
    FillOrder(p, d, Buffered, 1, Buffered);
    ToDispatcher(p, d, Buffered, 1, Buffered);
    FillFetched(p, d, Buffered, 1, Buffered, 1, Buffered);
    Then(p, Pipe(d, Buffered, 1, Buffered, 1, Buffered, 0), Read, Pipe(d, Buffered, 1, Buffered, 1, Buffered, 1));
  }

  /** The condition is exact, and New's own limit, KeepBehind alone, is not enough:
      for any larger batch some run has released its first block. */
  lemma BisectMisses(start: nat, from: nat, taken: seq<FetchQueue.Item>, commitEvery: nat)
    requires from <= start + 1 && commitEvery > 0 && start + commitEvery + Depth < from + |taken|
    requires commitEvery + Depth > FetchQueue.KeepBehind
    ensures exists run :: var q := After(Pipe(start, 0, 0, 0, 0, 0, 0), run);
                          && q.done == start + commitEvery
                          && FetchQueue.Reading(taken, from, start + 1, q.Last()) == FetchQueue.Released
  {
    CanFill(start, commitEvery);
    var full := Pipe(start + commitEvery, Buffered, 1, Buffered, 1, Buffered, 1);
    var run :| After(Pipe(start, 0, 0, 0, 0, 0, 0), run) == full;
    assert After(Pipe(start, 0, 0, 0, 0, 0, 0), run).Last() == start + commitEvery + Depth;
  }

  // ---------------------------------------------------------------- reconcile

  /** raws are the bytes appended at heights m+1 and on. */
  ghost predicate Appended(raws: seq<bytes>, taken: seq<FetchQueue.Item>, from: nat, m: nat) {
    from <= m + 1 && forall k {:trigger raws[k]} :: 0 <= k < |raws| ==> AppendedAt(raws[k], taken, from, m + 1 + k)
  }

  ghost predicate AppendedAt(raw: bytes, taken: seq<FetchQueue.Item>, from: nat, n: nat) {
    from <= n < from + |taken| && raw == taken[n - from].raw
  }

  /** The fetcher and the follower: any appends, and no reads. */
  method Appends(q: FetchQueue.Queue)
    requires q.Valid()
    modifies q
    ensures q.Valid() && q.consumed == old(q.consumed) && q.tail.from == old(q.tail.from)
    ensures old(q.tail.taken) <= q.tail.taken
  {
    var steps: nat := *;
    while steps > 0
      invariant q.Valid() && q.consumed == old(q.consumed) && q.tail.from == old(q.tail.from)
      invariant old(q.tail.taken) <= q.tail.taken
    {
      var x: FetchQueue.Item := *;
      var _ := q.Append(x);
      steps := steps - 1;
    }
  }

  lemma AppendedMore(raws: seq<bytes>, more: seq<bytes>, taken: seq<FetchQueue.Item>, taken': seq<FetchQueue.Item>,
                     from: nat, m: nat, mid: nat)
    requires Appended(raws, taken, from, m) && taken <= taken' && mid == m + |raws| && Appended(more, taken', from, mid)
    ensures Appended(raws + more, taken', from, m)
  {
    var all := raws + more;
    forall k {:trigger all[k]} | 0 <= k < |all| ensures AppendedAt(all[k], taken', from, m + 1 + k) {
      if k < |raws| {
        assert all[k] == raws[k] && AppendedAt(raws[k], taken, from, m + 1 + k);
      } else {
        assert all[k] == more[k - |raws|] && AppendedAt(more[k - |raws|], taken', from, mid + 1 + (k - |raws|));
      }
    }
  }

  lemma AppendedOne(raws: seq<bytes>, a: FetchQueue.Answer, taken: seq<FetchQueue.Item>, taken': seq<FetchQueue.Item>,
                    from: nat, m: nat)
    requires Appended(raws, taken, from, m) && taken <= taken'
    requires a.Got? ==> AppendedAt(a.raw, taken', from, m + 1 + |raws|)
    ensures Appended(raws, taken', from, m) && (a.Got? ==> Appended(raws + [a.raw], taken', from, m))
  {
    if a.Got? { AppendedMore(raws, [a.raw], taken, taken', from, m, m + |raws|); }
  }

  /** One read of height n, after any appends. */
  method ReadOne(q: FetchQueue.Queue, n: nat) returns (a: FetchQueue.Answer)
    requires q.Valid() && 0 < n && q.tail.from <= n
    modifies q
    ensures q.Valid() && q.tail.from == old(q.tail.from) && old(q.tail.taken) <= q.tail.taken
    ensures q.consumed == if a.Got? && n > old(q.consumed) then n else old(q.consumed)
    ensures a.Waits? <==> q.head < n
    ensures a.Released? <==> n <= q.head && n + FetchQueue.KeepBehind <= old(q.consumed)
    ensures a.Got? ==> AppendedAt(a.raw, q.tail.taken, q.tail.from, n)
  {
    Appends(q);
    ReadingCases(q.tail.taken, q.tail.from, n, q.consumed);
    a := q.GetByHeight(n);
  }

  lemma ReadingCases(taken: seq<FetchQueue.Item>, from: nat, n: nat, consumed: int)
    requires from <= n
    ensures var a := FetchQueue.Reading(taken, from, n, consumed);
            && (a.Waits? <==> from + |taken| <= n)
            && (a.Released? <==> n < from + |taken| && n + FetchQueue.KeepBehind <= consumed)
            && (a.Got? ==> AppendedAt(a.raw, taken, from, n))
  {
  }

  /** Reading m+1..last in order from a queue that has handed out nothing past m,
      while the fetcher appends: no height is released before its turn, each gives
      the bytes appended at it, and only one not appended yet is waited for. */
  method ReadOn(q: FetchQueue.Queue, m: nat, last: nat) returns (raws: seq<bytes>, a: FetchQueue.Answer)
    requires q.Valid() && q.tail.from <= m + 1 && m <= last && q.consumed <= m
    modifies q
    ensures q.Valid() && q.tail.from == old(q.tail.from) && old(q.tail.taken) <= q.tail.taken
    ensures |raws| <= last - m && Appended(raws, q.tail.taken, q.tail.from, m) && !a.Released?
    ensures |raws| < last - m ==> a.Waits? && q.head <= m + |raws|
    ensures q.consumed == if raws == [] then old(q.consumed) else m + |raws|
  {
    raws, a := [], FetchQueue.Waits;
    ghost var taken := q.tail.taken;
    while |raws| < last - m
      invariant q.Valid() && q.tail.from == old(q.tail.from) && old(q.tail.taken) <= q.tail.taken
      invariant |raws| <= last - m && taken == q.tail.taken && Appended(raws, taken, q.tail.from, m) && !a.Released?
      invariant q.consumed == if raws == [] then old(q.consumed) else m + |raws|
      decreases last - m - |raws|
    {
      a := ReadOne(q, m + 1 + |raws|);
      AppendedOne(raws, a, taken, q.tail.taken, q.tail.from, m);
      taken := q.tail.taken;
      if !a.Got? { return; }
      raws := raws + [a.raw];
    }
  }

  /** bisect inside reconcile: the prefetch pipeline is not running, so the queue has
      handed out exactly up to the batch's last block. Its blocks m+1..last are read a
      second time, and all of them are held exactly when there are no more of them
      than KeepBehind; otherwise the first is gone. */
  method ReadAgain(q: FetchQueue.Queue, m: nat, last: nat) returns (raws: seq<bytes>, a: FetchQueue.Answer)
    requires q.Valid() && q.tail.from <= m + 1 && m < last == q.consumed
    modifies q
    ensures q.Valid() && q.tail.from == old(q.tail.from) && old(q.tail.taken) <= q.tail.taken && q.consumed == last
    ensures Appended(raws, q.tail.taken, q.tail.from, m)
    ensures if last - m <= FetchQueue.KeepBehind then |raws| == last - m && a.Got? else raws == [] && a.Released?
  {
    raws, a := [], FetchQueue.Released;
    ghost var taken := q.tail.taken;
    while |raws| < last - m
      invariant q.Valid() && q.tail.from == old(q.tail.from) && old(q.tail.taken) <= q.tail.taken && q.consumed == last
      invariant |raws| <= last - m && taken == q.tail.taken && Appended(raws, taken, q.tail.from, m)
      invariant raws != [] ==> last - m <= FetchQueue.KeepBehind && a.Got?
      decreases last - m - |raws|
    {
      a := ReadOne(q, m + 1 + |raws|);
      AppendedOne(raws, a, taken, q.tail.taken, q.tail.from, m);
      taken := q.tail.taken;
      if !a.Got? { return; }
      raws := raws + [a.raw];
    }
  }

  /** One batch of reconcile: read, and bisected if its root does not come out. a is the
      last answer. */
  method ReadBatch(q: FetchQueue.Queue, m: nat, last: nat, bisect: bool)
    returns (raws: seq<bytes>, a: FetchQueue.Answer)
    requires q.Valid() && q.tail.from <= m + 1 && m < last && q.consumed <= m
    modifies q
    ensures q.Valid() && q.tail.from == old(q.tail.from) && old(q.tail.taken) <= q.tail.taken && q.consumed <= last
    ensures |raws| <= last - m && Appended(raws, q.tail.taken, q.tail.from, m)
    ensures |raws| < last - m ==> a.Waits? && q.head <= m + |raws|
    ensures a.Released? <==> |raws| == last - m && bisect && last - m > FetchQueue.KeepBehind
  {
    raws, a := ReadOn(q, m, last);
    if |raws| == last - m && bisect {
      ghost var taken := q.tail.taken;
      var again;
      again, a := ReadAgain(q, m, last);
      AppendedOne(raws, FetchQueue.Waits, taken, q.tail.taken, q.tail.from, m);
    }
  }

  /** The next batch on top of what was read, up to height at. */
  method ReadNext(q: FetchQueue.Queue, at: nat, last: nat, bisect: bool, fwN: nat, before: seq<bytes>)
    returns (raws: seq<bytes>, a: FetchQueue.Answer)
    requires q.Valid() && q.tail.from <= fwN + 1 && q.consumed <= at < last
    requires Appended(before, q.tail.taken, q.tail.from, fwN) && |before| == at - fwN
    modifies q
    ensures q.Valid() && q.tail.from == old(q.tail.from) && old(q.head) <= q.head && q.consumed <= last
    ensures |before| <= |raws| <= last - fwN && Appended(raws, q.tail.taken, q.tail.from, fwN)
    ensures |raws| < last - fwN ==> a.Waits? && q.head <= fwN + |raws|
    ensures a.Released? <==> |raws| == last - fwN && bisect && last - at > FetchQueue.KeepBehind
  {
    ghost var taken := q.tail.taken;
    var more;
    more, a := ReadBatch(q, at, last, bisect);
    AppendedMore(before, more, taken, q.tail.taken, q.tail.from, fwN, at);
    raws := before + more;
  }

  /** reconcile after a match at fwN, on a queue opened where FetchStart says and not
      read past fwN: batch after batch is read up to the store's head, and any batch may
      mismatch and be bisected, which ends it. It stops short of the head only there,
      or at a block that has not been appended. No answer is that a block was released
      when a batch is no larger than KeepBehind, as New asks; what a larger one meets is
      ReadAgain's. */
  method ReconcileReads(q: FetchQueue.Queue, top: nat, commitEvery: nat, fwN: nat)
    returns (raws: seq<bytes>, a: FetchQueue.Answer, bisected: bool)
    requires Executor.FetchFrom(top, commitEvery) <= fwN + 1 <= top + 1
    requires q.Valid() && q.tail.from == Executor.FetchFrom(top, commitEvery) && q.consumed <= fwN
    modifies q
    ensures q.Valid() && old(q.head) <= q.head
    ensures |raws| <= top - fwN && Appended(raws, q.tail.taken, q.tail.from, fwN)
    ensures |raws| < top - fwN ==> bisected || (a.Waits? && q.head <= fwN + |raws|)
    ensures bisected ==> raws != [] && commitEvery > 1
    ensures a.Released? ==> bisected && commitEvery > FetchQueue.KeepBehind
  {
    raws, a, bisected := [], FetchQueue.Waits, false;
    var at := fwN;
    while at < top && !bisected && |raws| == at - fwN
      invariant q.Valid() && q.tail.from == old(q.tail.from) && old(q.head) <= q.head && fwN <= at <= top
      invariant Appended(raws, q.tail.taken, q.tail.from, fwN) && |raws| <= at - fwN && q.consumed <= at
      invariant |raws| < at - fwN ==> a.Waits? && q.head <= fwN + |raws|
      invariant bisected ==> raws != [] && commitEvery > 1
      invariant a.Released? ==> bisected && commitEvery > FetchQueue.KeepBehind
      decreases top - at
    {
      var last := BatchEnd(at, top, commitEvery);
      var bisect: bool := *;
      bisect := bisect && commitEvery > 1;
      raws, a := ReadNext(q, at, last, bisect, fwN, raws);
      bisected := bisect && |raws| == last - fwN;
      at := last;
    }
  }

  /** Where the batch that starts after at ends; without batching each block is one. */
  function BatchEnd(at: nat, top: nat, commitEvery: nat): (last: nat)
    requires at < top
    ensures at < last <= top && (commitEvery > 1 ==> last - at <= commitEvery)
  {
    if commitEvery <= 1 then at + 1 else if at + commitEvery < top then at + commitEvery else top
  }

  /** The fallback to genesis: when the walk-back ends without a match, the queue that
      FetchStart opened begins above block 1, so the first block reconcile would
      execute on genesis is answered as released. */
  method FallbackFails(node: Executor.Node, rootFW: Executor.Root, q: FetchQueue.Queue)
    returns (st: Executor.Status, found: bool, a: FetchQueue.Answer)
    requires node.Saved() && node.store != [] && q.Valid()
    requires q.tail.from == Executor.FetchFrom(|node.store|, node.commitEvery)
    modifies q
    ensures st.Ok? && !found ==> a.Released?
  {
    var fwN;
    st, found, fwN := node.WalkBack(rootFW);
    a := q.GetByHeight(1);
    if st.Ok? && !found { NeverFetched(|node.store|, node.commitEvery, q.tail.taken, q.consumed); }
  }

  /** Block 1 is below what is fetched for any store the budget does not reach through. */
  lemma NeverFetched(top: nat, commitEvery: nat, taken: seq<FetchQueue.Item>, consumed: int)
    requires Executor.Low(top, commitEvery) > 0
    ensures FetchQueue.Reading(taken, Executor.FetchFrom(top, commitEvery), 1, consumed) == FetchQueue.Released
  {
  }
}
