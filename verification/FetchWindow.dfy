/** fetch/window.go, forward: the scheduler that hands out spans of heights, joins
    the answers in order and re-asks what does not link, while the consensus
    follower and the executor use the same queue at any moment. */
module FetchWindow {
  import opened FetchQueue

  const WindowBlocks: nat := 100000
  const RefillBelow: nat := 50000
  const SpanBlocks: nat := 4096
  const FetchSpans: nat := 16

  datatype Span = Span(lo: nat, hi: nat)

  /** An answered span: its blocks, ascending. */
  datatype Result = Result(span: Span, blocks: seq<Item>)

  /** What fetchSpan returns is numbered lo..hi. */
  predicate Numbered(r: Result) {
    r.span.lo <= r.span.hi && |r.blocks| == r.span.hi - r.span.lo + 1 && forall i :: 0 <= i < |r.blocks| ==>
      r.blocks[i].num == r.span.lo + i
  }

  /** Where a scheduled span is. */
  datatype Place = Redo | Ready | Flying | Arrived | Joining

  type Plan = map<Span, Place>

  predicate Apart(s: Span, t: Span) { s.hi < t.lo || t.hi < s.lo }

  ghost predicate Has(w: Plan, h: int) { exists s :: s in w && s.lo <= h <= s.hi }

  /** The scheduled spans are disjoint and below next, no further ahead than bound,
      and between the queue's head and next every height is in one of them. */
  ghost predicate PlanOk(w: Plan, head: int, next: nat, bound: int) {
    && (forall s {:trigger s in w} :: s in w ==> s.lo <= s.hi < next && s.hi <= bound)
    && (forall s, t {:trigger Apart(s, t)} :: s in w && t in w && s != t ==> Apart(s, t))
    && (forall h: int {:trigger Has(w, h)} :: head < h < next ==> Has(w, h))
  }

  lemma ExactlyOne(w: Plan, head: int, next: nat, bound: int, h: int)
    requires PlanOk(w, head, next, bound) && head < h < next
    ensures exists s :: s in w && s.lo <= h <= s.hi && forall t :: t in w && t.lo <= h <= t.hi ==> t == s
  {
    assert Has(w, h);
    var s :| s in w && s.lo <= h <= s.hi;
    forall t | t in w && t.lo <= h <= t.hi ensures t == s { assert t != s ==> Apart(t, s); }
  }

  lemma PlanMoves(w: Plan, head: int, next: nat, bound: int, s: Span, p: Place)
    requires PlanOk(w, head, next, bound) && s in w
    ensures PlanOk(w[s := p], head, next, bound)
  {
    forall h: int {:trigger Has(w[s := p], h)} | head < h < next ensures Has(w[s := p], h) {
      assert Has(w, h);
      var t :| t in w && t.lo <= h <= t.hi;
      assert t in w[s := p];
    }
  }

  lemma PlanKeeps(w: Plan, head: int, next: nat, bound: int, head': int, bound': int)
    requires PlanOk(w, head, next, bound) && head <= head' && bound <= bound'
    ensures PlanOk(w, head', if next <= head' then head' + 1 else next, bound')
    ensures PlanOk(w, head', next, bound')
  {
  }

  lemma PlanAdds(w: Plan, head: int, next: nat, bound: int, hi: nat, p: Place)
    requires PlanOk(w, head, next, bound) && next <= hi <= bound
    ensures Span(next, hi) !in w && PlanOk(w[Span(next, hi) := p], head, hi + 1, bound)
  {
    var s := Span(next, hi);
    var w' := w[s := p];
    forall h: int {:trigger Has(w', h)} | head < h < hi + 1 ensures Has(w', h) {
      if h < next {
        assert Has(w, h);
        var t :| t in w && t.lo <= h <= t.hi;
        assert t in w';
      } else {
        assert s in w';
      }
    }
  }

  /** A span the queue has passed is forgotten. */
  lemma PlanDrops(w: Plan, head: int, next: nat, bound: int, s: Span)
    requires PlanOk(w, head, next, bound) && s in w && s.hi <= head
    ensures PlanOk(w - {s}, head, next, bound)
  {
    forall h: int {:trigger Has(w - {s}, h)} | head < h < next ensures Has(w - {s}, h) {
      assert Has(w, h);
      var t :| t in w && t.lo <= h <= t.hi;
      assert t in w - {s};
    }
  }

  /** A span that broke at bad is cut there and asked for again. */
  lemma PlanCuts(w: Plan, head: int, next: nat, bound: int, r: Span, bad: nat)
    requires PlanOk(w, head, next, bound) && r in w && r.lo <= bad <= r.hi && bad <= head + 1
    ensures Span(bad, r.hi) !in w - {r} && PlanOk((w - {r})[Span(bad, r.hi) := Redo], head, next, bound)
  {
    var s := Span(bad, r.hi);
    var w' := (w - {r})[s := Redo];
    forall t | t in w && t != r ensures Apart(s, t) && Apart(t, s) { assert Apart(r, t); }
    forall x, t {:trigger Apart(x, t)} | x in w' && t in w' && x != t ensures Apart(x, t) {
      assert x != s && t != s ==> x in w && t in w;
    }
    forall h: int {:trigger Has(w', h)} | head < h < next ensures Has(w', h) {
      assert Has(w, h);
      var t :| t in w && t.lo <= h <= t.hi;
      if t == r { assert s in w'; } else { assert t in w'; }
    }
  }

  /** The scheduler's own records of its spans. */
  datatype Books = Books(redo: seq<Span>, ready: set<Span>, fly: set<Span>, pending: map<nat, Result>, hand: set<Span>)
  {
    ghost predicate Has(s: Span, p: Place) {
      match p
      case Redo => s in redo
      case Ready => s in ready
      case Flying => s in fly
      case Arrived => s.lo in pending && pending[s.lo].span == s
      case Joining => s in hand
    }
  }

  ghost predicate Waiting(w: Plan, lo: nat, r: Result) {
    Numbered(r) && r.span.lo == lo && r.span in w && w[r.span].Arrived?
  }

  ghost predicate NoDups(redo: seq<Span>) {
    forall i, j {:trigger redo[i], redo[j]} :: 0 <= i < j < |redo| ==> redo[i] != redo[j]
  }

  /** Every scheduled span is in exactly the one place the plan names. */
  ghost predicate Placed(w: Plan, b: Books) {
    && (forall s {:trigger s in w} :: s in w ==> b.Has(s, w[s]))
    && (forall s {:trigger s in b.redo} :: s in b.redo ==> s in w && w[s].Redo?)
    && NoDups(b.redo)
    && (forall s {:trigger s in b.ready} :: s in b.ready ==> s in w && w[s].Ready?)
    && (forall s {:trigger s in b.fly} :: s in b.fly ==> s in w && w[s].Flying?)
    && (forall s {:trigger s in b.hand} :: s in b.hand ==> s in w && w[s].Joining?)
    && (forall lo {:trigger lo in b.pending} :: lo in b.pending ==> Waiting(w, lo, b.pending[lo]))
  }

  lemma Sends(w: Plan, b: Books, s: Span)
    requires Placed(w, b) && s in b.ready
    ensures s !in b.fly && Placed(w[s := Flying], b.(ready := b.ready - {s}, fly := b.fly + {s}))
  {
  }

  lemma Arrives(w: Plan, b: Books, r: Result, head: int, next: nat, bound: int)
    requires Placed(w, b) && PlanOk(w, head, next, bound) && r.span in b.fly && Numbered(r)
    ensures r.span.lo !in b.pending
    ensures Placed(w[r.span := Arrived], b.(fly := b.fly - {r.span}, pending := b.pending[r.span.lo := r]))
  {
    assert forall s {:trigger s in w} :: s in w && s != r.span ==> Apart(s, r.span);
    var b' := b.(fly := b.fly - {r.span}, pending := b.pending[r.span.lo := r]);
    forall s {:trigger s in w} | s in w && s != r.span ensures b'.Has(s, w[s]) { assert b.Has(s, w[s]); }
  }

  lemma Retries(w: Plan, b: Books)
    requires Placed(w, b) && b.redo != [] && b.ready == {}
    ensures b.redo[0] in w && Placed(w[b.redo[0] := Ready], b.(redo := b.redo[1..], ready := {b.redo[0]}))
  {
    var s, rest := b.redo[0], b.redo[1..];
    assert b.redo == [s] + rest && s in b.redo;
    assert forall t :: t in rest ==> t in b.redo && t != s by {
      forall t | t in rest ensures t in b.redo && t != s {
        var i :| 0 <= i < |rest| && rest[i] == t;
        assert b.redo[i + 1] == t;
      }
    }
  }

  lemma Schedules(w: Plan, b: Books, s: Span)
    requires Placed(w, b) && s !in w && b.ready == {}
    ensures Placed(w[s := Ready], b.(ready := {s}))
  {
  }

  lemma Takes(w: Plan, b: Books, lo: nat)
    requires Placed(w, b) && lo in b.pending && b.hand == {}
    ensures var s := b.pending[lo].span;
            s in w && Placed(w[s := Joining], b.(pending := b.pending - {lo}, hand := {s}))
  {
    var r := b.pending[lo];
    assert Waiting(w, lo, r);
    var b' := b.(pending := b.pending - {lo}, hand := {r.span});
    forall s {:trigger s in w} | s in w && s != r.span ensures b'.Has(s, w[s]) { assert b.Has(s, w[s]); }
  }

  lemma Finishes(w: Plan, b: Books, s: Span)
    requires Placed(w, b) && b.hand == {s}
    ensures s in w && Placed(w - {s}, b.(hand := {}))
  {
  }

  lemma Cuts(w: Plan, b: Books, s: Span, t: Span)
    requires Placed(w, b) && b.hand == {s} && t !in w - {s}
    ensures s in w && Placed((w - {s})[t := Redo], b.(hand := {}, redo := b.redo + [t]))
  {
    assert s in b.hand;
    var redo := b.redo + [t];
    forall i, j {:trigger redo[i], redo[j]} | 0 <= i < j < |redo| ensures redo[i] != redo[j] {
      assert b.redo[i] in b.redo;
    }
  }

  lemma Forgets(w: Plan, b: Books, lo: nat)
    requires Placed(w, b) && lo in b.pending
    ensures b.pending[lo].span in w && Placed(w - {b.pending[lo].span}, b.(pending := b.pending - {lo}))
  {
    var r := b.pending[lo];
    assert Waiting(w, lo, r);
    var b' := b.(pending := b.pending - {lo});
    forall s {:trigger s in w} | s in w && s != r.span ensures b'.Has(s, w[s]) { assert b.Has(s, w[s]); }
  }

  function Min(a: int, b: int): int { if a < b then a else b }

  /** The follower and the executor: any appends and reads on the queue. */
  method Others(q: Queue)
    requires q.Valid()
    modifies q
    ensures q.Valid() && q.head >= old(q.head) && q.consumed >= old(q.consumed) && q.consumed >= -1
  {
    var steps: nat := *;
    while steps > 0
      invariant q.Valid() && q.head >= old(q.head) && q.consumed >= old(q.consumed)
    {
      var append: bool := *;
      if append {
        var x: Item := *;
        var _ := q.Append(x);
      } else {
        var n: nat := *;
        var _ := q.GetByHeight(n);
      }
      steps := steps - 1;
    }
  }

  /** joinSpan: the blocks of an answered span in order, skipping those the
      follower delivered first; bad is the first that does not link. */
  method JoinSpan(q: Queue, r: Result) returns (bad: nat, ok: bool)
    requires q.Valid() && Numbered(r) && r.span.lo <= q.head + 1
    modifies q
    ensures q.Valid() && q.head >= old(q.head) && q.consumed >= old(q.consumed)
    ensures ok ==> r.span.hi <= q.head
    ensures !ok ==> r.span.lo <= bad <= r.span.hi && bad <= q.head + 1
    ensures !ok ==> bad <= q.head || r.blocks[bad - r.span.lo].parent != q.headHash
  {
    var i := 0;
    while i < |r.blocks|
      invariant 0 <= i <= |r.blocks| && q.Valid() && q.head >= old(q.head) && q.consumed >= old(q.consumed)
      invariant r.span.lo + i <= q.head + 1
    {
      var b := r.blocks[i];
      if b.num > q.head {
        Others(q);
        var joined := q.Append(b);
        if !joined { return b.num, false; }
      }
      Others(q);
      i := i + 1;
    }
    return 0, true;
  }

  /** No span goes past the tip target it was scheduled under. */
  ghost predicate Aimed(w: Plan, goal: map<Span, nat>) {
    forall s {:trigger s in w} :: s in w ==> s in goal && s.hi <= goal[s]
  }

  /** The scheduler's spans against a head it has seen and a bound it was under; goal
      is the tip target each was scheduled under, kept when a span is cut. */
  datatype Schedule = Schedule(w: Plan, b: Books, head: int, next: nat, bound: int, goal: map<Span, nat>)

  type Sound = s: Schedule | PlanOk(s.w, s.head, s.next, s.bound) && Placed(s.w, s.b) && Aimed(s.w, s.goal)
    ghost witness Schedule(map[], Books([], {}, {}, map[], {}), -1, 0, 0, map[])

  /** The queue's head and the bound only grow. */
  lemma Refresh(g: Sound, head: int, bound: int) returns (g': Sound)
    requires g.head <= head && g.bound <= bound
    ensures g' == g.(head := head, bound := bound)
  {
    PlanKeeps(g.w, g.head, g.next, g.bound, head, bound);
    g' := g.(head := head, bound := bound);
  }

  /** The follower delivered past next. */
  lemma Jump(g: Sound, head: int) returns (g': Sound)
    requires g.next <= head <= g.head
    ensures g' == g.(next := head + 1)
  {
    g' := g.(next := head + 1);
  }

  lemma DoForget(g: Sound, lo: nat) returns (g': Sound)
    requires lo in g.b.pending && g.b.pending[lo].span.hi <= g.head
    ensures g'.b == g.b.(pending := g.b.pending - {lo})
    ensures (g'.head, g'.next, g'.bound, g'.goal) == (g.head, g.next, g.bound, g.goal)
  {
    var s := g.b.pending[lo].span;
    Forgets(g.w, g.b, lo);
    PlanDrops(g.w, g.head, g.next, g.bound, s);
    g' := Schedule(g.w - {s}, g.b.(pending := g.b.pending - {lo}), g.head, g.next, g.bound, g.goal);
  }

  lemma DoTake(g: Sound, lo: nat) returns (g': Sound)
    requires lo in g.b.pending && g.b.hand == {}
    ensures var r := g.b.pending[lo];
            g'.b == g.b.(pending := g.b.pending - {lo}, hand := {r.span}) && Numbered(r) && r.span.lo == lo
    ensures (g'.head, g'.next, g'.bound, g'.goal) == (g.head, g.next, g.bound, g.goal)
  {
    var s := g.b.pending[lo].span;
    assert Waiting(g.w, lo, g.b.pending[lo]);
    Takes(g.w, g.b, lo);
    PlanMoves(g.w, g.head, g.next, g.bound, s, Joining);
    g' := Schedule(g.w[s := Joining], g.b.(pending := g.b.pending - {lo}, hand := {s}),
                   g.head, g.next, g.bound, g.goal);
  }

  lemma DoFinish(g: Sound, s: Span) returns (g': Sound)
    requires g.b.hand == {s} && s.hi <= g.head
    ensures g'.b == g.b.(hand := {}) && (g'.head, g'.next, g'.bound, g'.goal) == (g.head, g.next, g.bound, g.goal)
  {
    Finishes(g.w, g.b, s);
    PlanDrops(g.w, g.head, g.next, g.bound, s);
    g' := Schedule(g.w - {s}, g.b.(hand := {}), g.head, g.next, g.bound, g.goal);
  }

  lemma DoCut(g: Sound, s: Span, bad: nat) returns (g': Sound)
    requires g.b.hand == {s} && s.lo <= bad <= s.hi && bad <= g.head + 1
    ensures g'.b == g.b.(hand := {}, redo := g.b.redo + [Span(bad, s.hi)])
    ensures (g'.head, g'.next, g'.bound) == (g.head, g.next, g.bound)
    ensures s in g.goal && g'.goal == g.goal[Span(bad, s.hi) := g.goal[s]]
  {
    var t := Span(bad, s.hi);
    assert s in g.b.hand;
    PlanCuts(g.w, g.head, g.next, g.bound, s, bad);
    Cuts(g.w, g.b, s, t);
    g' := Schedule((g.w - {s})[t := Redo], g.b.(hand := {}, redo := g.b.redo + [t]),
                   g.head, g.next, g.bound, g.goal[t := g.goal[s]]);
  }

  lemma DoRetry(g: Sound) returns (g': Sound)
    requires g.b.redo != [] && g.b.ready == {}
    ensures g'.b == g.b.(redo := g.b.redo[1..], ready := {g.b.redo[0]})
    ensures (g'.head, g'.next, g'.bound, g'.goal) == (g.head, g.next, g.bound, g.goal)
  {
    Retries(g.w, g.b);
    PlanMoves(g.w, g.head, g.next, g.bound, g.b.redo[0], Ready);
    g' := Schedule(g.w[g.b.redo[0] := Ready], g.b.(redo := g.b.redo[1..], ready := {g.b.redo[0]}),
                   g.head, g.next, g.bound, g.goal);
  }

  lemma DoSchedule(g: Sound, hi: nat, tip: nat) returns (g': Sound)
    requires g.b.ready == {} && g.next <= hi <= g.bound && hi <= tip
    ensures g'.b == g.b.(ready := {Span(g.next, hi)}) && (g'.head, g'.next, g'.bound) == (g.head, hi + 1, g.bound)
    ensures g'.goal == g.goal[Span(g.next, hi) := tip]
  {
    var s := Span(g.next, hi);
    PlanAdds(g.w, g.head, g.next, g.bound, hi, Ready);
    Schedules(g.w, g.b, s);
    g' := Schedule(g.w[s := Ready], g.b.(ready := {s}), g.head, hi + 1, g.bound, g.goal[s := tip]);
  }

  lemma DoSend(g: Sound, s: Span) returns (g': Sound)
    requires g.b.ready == {s}
    ensures s !in g.b.fly && g'.b == g.b.(ready := {}, fly := g.b.fly + {s})
    ensures (g'.head, g'.next, g'.bound, g'.goal) == (g.head, g.next, g.bound, g.goal)
  {
    Sends(g.w, g.b, s);
    assert s in g.b.ready && g.b.ready - {s} == {};
    PlanMoves(g.w, g.head, g.next, g.bound, s, Flying);
    g' := Schedule(g.w[s := Flying], g.b.(ready := {}, fly := g.b.fly + {s}), g.head, g.next, g.bound, g.goal);
  }

  lemma DoArrive(g: Sound, r: Result) returns (g': Sound)
    requires r.span in g.b.fly && Numbered(r)
    ensures g'.b == g.b.(fly := g.b.fly - {r.span}, pending := g.b.pending[r.span.lo := r]) && r.span.lo !in g.b.pending
    ensures (g'.head, g'.next, g'.bound, g'.goal) == (g.head, g.next, g.bound, g.goal)
  {
    Arrives(g.w, g.b, r, g.head, g.next, g.bound);
    PlanMoves(g.w, g.head, g.next, g.bound, r.span, Arrived);
    g' := Schedule(g.w[r.span := Arrived], g.b.(fly := g.b.fly - {r.span}, pending := g.b.pending[r.span.lo := r]),
                   g.head, g.next, g.bound, g.goal);
  }

  /** spanned: forgets the answers the queue has passed and picks the one that
      covers want. */
  method Spanned(pending: map<nat, Result>, want: nat, ghost g: Sound)
    returns (left: map<nat, Result>, found: bool, at: nat, ghost g': Sound)
    requires g.b.pending == pending && want <= g.head + 1
    ensures g'.b == g.b.(pending := left) && (g'.head, g'.next, g'.bound, g'.goal) == (g.head, g.next, g.bound, g.goal)
    ensures left == map lo | lo in pending && pending[lo].span.hi >= want :: pending[lo]
    ensures if found then at in left && at <= want else forall lo :: lo in left ==> want < lo
  {
    left, found, at, g' := pending, false, 0, g;
    var todo := pending.Keys;
    while todo != {}
      invariant g'.b == g.b.(pending := left)
      invariant (g'.head, g'.next, g'.bound, g'.goal) == (g.head, g.next, g.bound, g.goal)
      invariant todo <= left.Keys
      invariant left == map lo | lo in pending && (lo in todo || pending[lo].span.hi >= want) :: pending[lo]
      invariant if found then at in left && at <= want && at !in todo else forall lo :: lo in left && lo !in todo ==>
                  want < lo
      decreases todo
    {
      var lo :| lo in todo;
      if left[lo].span.hi < want {
        g' := DoForget(g', lo);
        left := left - {lo};
      } else if lo <= want {
        found, at := true, lo;
      }
      todo := todo - {lo};
    }
  }

  /** After joinSpan: nothing, or the rest of the span back in redo. */
  method Joined(redo: seq<Span>, s: Span, bad: nat, ok: bool, ghost g: Sound)
    returns (redo': seq<Span>, ghost g': Sound)
    requires g.b.redo == redo && g.b.hand == {s}
    requires if ok then s.hi <= g.head else s.lo <= bad <= s.hi && bad <= g.head + 1
    ensures g'.b == g.b.(hand := {}, redo := redo') && (g'.head, g'.next, g'.bound) == (g.head, g.next, g.bound)
    ensures redo' == if ok then redo else redo + [Span(bad, s.hi)]
    ensures s in g.goal && g'.goal == if ok then g.goal else g.goal[Span(bad, s.hi) := g.goal[s]]
  {
    redo' := redo;
    if ok {
      g' := DoFinish(g, s);
    } else {
      g' := DoCut(g, s, bad);
      redo' := redo + [Span(bad, s.hi)];
    }
  }

  datatype Choice = Choice(out: bool, job: Span, redo: seq<Span>, next: nat)

  /** The switch of the window rule: a span to re-ask first, else a new one. */
  method Choose(redo: seq<Span>, next: nat, job: Span, target: nat, ghost tip: nat, ghost g: Sound)
    returns (c: Choice, ghost g': Sound)
    requires g.b.redo == redo && g.next == next && g.b.ready == {} && target <= g.bound && target <= tip
    ensures g'.b == g.b.(redo := c.redo, ready := if c.out then {c.job} else {})
    ensures (g'.head, g'.next, g'.bound) == (g.head, c.next, g.bound)
    ensures c.out <==> redo != [] || next <= target
    ensures redo != [] ==> [c.job] + c.redo == redo && c.next == next
    ensures redo == [] ==> c.redo == [] && c.next == if c.out then c.job.hi + 1 else next
    ensures redo == [] && c.out ==> c.job == Span(next, Min(next + SpanBlocks - 1, target))
    ensures g'.goal == if redo == [] && c.out then g.goal[c.job := tip] else g.goal
  {
    c, g' := Choice(false, job, redo, next), g;
    if |redo| > 0 {
      g' := DoRetry(g);
      c := Choice(true, redo[0], redo[1..], next);
    } else if next <= target {
      var hi := if next + SpanBlocks - 1 < target then next + SpanBlocks - 1 else target;
      g' := DoSchedule(g, hi, tip);
      c := Choice(true, Span(next, hi), redo, hi + 1);
    }
  }

  class Forward {
    const q: Queue
    var next: nat // next height not yet scheduled
    var redo: seq<Span> // spans a broken link sent back
    var pending: map<nat, Result> // answered spans, by first height
    var inflight: nat
    var filling: bool
    var job: Span
    var out: bool // a job is ready to hand out
    var fly: set<Span> // with the workers or on the way back
    ghost var g: Sound

    ghost predicate Kept()
      reads this
    {
      && next == g.next && redo == g.b.redo && pending == g.b.pending && g.b.ready == (if out then {job} else {})
      && fly == g.b.fly && inflight == |fly| && inflight + (if out then 1 else 0) <= FetchSpans
    }

    ghost predicate Inv()
      reads this, q
    {
      Kept() && q.Valid() && g.head <= q.head && g.bound <= q.consumed + WindowBlocks
    }

    /** In every reachable state: the redo, ready, in-flight and answered spans are
        disjoint, below next, within the window, and none past the tip target it was
        scheduled under; every height between the queue's head and next is in exactly
        one of them. */
    lemma Sound(h: int)
      requires Inv()
      ensures PlanOk(g.w, q.head, next, q.consumed + WindowBlocks) && Placed(g.w, g.b) && Aimed(g.w, g.goal)
      ensures q.head < h < next ==> exists s ::
                s in g.w && s.lo <= h <= s.hi && forall t :: t in g.w && t.lo <= h <= t.hi ==> t == s
    {
      var now := Refresh(g, q.head, q.consumed + WindowBlocks);
      if q.head < h < next { ExactlyOne(now.w, now.head, now.next, now.bound, h); }
    }

    constructor (q: Queue)
      requires q.Valid()
      ensures Inv() && g.b.hand == {} && this.q == q && g.w == map[] && g.goal == map[]
    {
      this.q, next, redo, pending, inflight, filling, job, out := q, q.head + 1, [], map[], 0, true, Span(0, 0), false;
      fly := {};
      g := Schedule(map[], Books([], {}, {}, map[], {}), q.head, q.head + 1, 0, map[]);
    }

    /** g has seen no more than this head and this consumption. */
    ghost predicate Seen(head: int, consumed: int)
      reads this
    {
      Kept() && g.head <= head && g.bound <= consumed + WindowBlocks
    }

    method Take(lo: nat, ghost head: int, ghost consumed: int) returns (r: Result)
      requires Seen(head, consumed) && g.b.hand == {} && lo in pending
      modifies this`pending, this`g
      ensures Seen(head, consumed) && pending == old(pending) - {lo} && g.b.hand == {r.span} && Numbered(r)
      ensures r.span.lo == lo
      ensures g.goal == old(g.goal)
    {
      r := pending[lo];
      g := DoTake(g, lo);
      pending := pending - {lo};
    }

    method Settle(s: Span, bad: nat, ok: bool, ghost head: int, ghost consumed: int)
      requires Seen(head, consumed) && g.b.hand == {s}
      requires if ok then s.hi <= head else s.lo <= bad <= s.hi && bad <= head + 1
      modifies this`g, this`redo
      ensures Seen(head, consumed) && g.b.hand == {} && redo == if ok then old(redo) else old(redo) + [Span(bad, s.hi)]
      ensures s in old(g.goal) && g.goal == if ok then old(g.goal) else old(g.goal)[Span(bad, s.hi) := old(g.goal)[s]]
    {
      ghost var now := Refresh(g, head, g.bound);
      redo, g := Joined(redo, s, bad, ok, now);
    }

    /** Join one answered span; what does not link is asked for again. */
    method JoinAt(lo: nat)
      requires Inv() && g.b.hand == {} && lo in pending && lo <= q.head + 1
      modifies this`pending, this`g, this`redo, q
      ensures Inv() && g.b.hand == {} && pending == old(pending) - {lo}
    {
      var r := Take(lo, q.head, q.consumed);
      var bad, ok := JoinSpan(q, r);
      Settle(r.span, bad, ok, q.head, q.consumed);
    }

    method Pick(want: nat, ghost head: int, ghost consumed: int) returns (found: bool, at: nat)
      requires Seen(head, consumed) && want <= head + 1
      modifies this`pending, this`g
      ensures Seen(head, consumed) && pending.Keys <= old(pending.Keys) && g.b.hand == old(g.b.hand)
      ensures g.goal == old(g.goal)
      ensures found ==> at in pending && at <= want
    {
      ghost var now := Refresh(g, head, g.bound);
      pending, found, at, g := Spanned(pending, want, now);
    }

    /** The joining loop, the others at work throughout. */
    method JoinAll()
      requires Inv() && g.b.hand == {}
      modifies this`pending, this`g, this`redo, q
      ensures Inv() && g.b.hand == {}
    {
      while true
        invariant Inv() && g.b.hand == {}
        decreases pending.Keys
      {
        Others(q);
        var want := q.head + 1;
        Others(q);
        var found, at := Pick(want, q.head, q.consumed);
        if !found { return; }
        JoinAt(at);
      }
    }

    /** The window rule: what to hand out next, if anything. tip is the target the
        tip or the override gives, 0 when unknown; full is the byte limit reached. */
    method Plan(tip: nat, full: bool)
      requires Inv() && g.b.hand == {}
      modifies this`next, this`filling, this`out, this`job, this`redo, this`g, q
      ensures Inv() && g.b.hand == {}
    {
      var head := q.head;
      Others(q);
      var consumed := q.consumed;
      Others(q);
      Decide(head, consumed, tip, full, q.head, q.consumed);
    }

    method Decide(head: int, consumed: int, tip: nat, full: bool, ghost head': int, ghost consumed': int)
      requires Seen(head', consumed') && g.b.hand == {} && head <= head' && -1 <= consumed <= consumed'
      modifies this`next, this`filling, this`out, this`job, this`redo, this`g
      ensures Seen(head', consumed') && g.b.hand == {}
      ensures old(out) ==> out && job == old(job) && redo == old(redo)
      ensures var first := if old(next) <= head then head + 1 else old(next);
              && filling == (&& first <= consumed + WindowBlocks
                             && (old(filling) || consumed <= head < consumed + RefillBelow))
              && (!old(out) ==> (out <==> filling && !full && inflight < FetchSpans
                                          && (old(redo) != [] || first <= Min(consumed + WindowBlocks, tip))))
      ensures g.goal == if !old(out) && out && old(redo) == [] then old(g.goal)[job := tip] else old(g.goal)
    {
      if next <= head { JumpTo(head, head', consumed'); }
      if consumed <= head < consumed + RefillBelow { filling := true; } // unsigned: a consumer past head wraps
      if next > consumed + WindowBlocks { filling := false; }
      var target := if consumed + WindowBlocks < tip then consumed + WindowBlocks else tip;
      if !out && filling && !full && inflight < FetchSpans { HandOut(target, tip, head', consumed'); }
    }

    /** The follower delivered the tip zone under the scheduler. */
    method JumpTo(head: int, ghost head': int, ghost consumed: int)
      requires Seen(head', consumed) && next <= head <= head'
      modifies this`g, this`next
      ensures Seen(head', consumed) && g.b == old(g.b) && next == head + 1 && g.goal == old(g.goal)
    {
      ghost var now := Refresh(g, head', g.bound);
      g := Jump(now, head);
      next := head + 1;
    }

    method HandOut(target: nat, ghost tip: nat, ghost head: int, ghost consumed: int)
      requires Seen(head, consumed) && g.b.hand == {} && !out && inflight < FetchSpans
      requires target <= Min(consumed + WindowBlocks, tip)
      modifies this`next, this`out, this`job, this`redo, this`g
      ensures Seen(head, consumed) && g.b.hand == {}
      ensures out <==> old(redo) != [] || old(next) <= target
      ensures g.goal == if out && old(redo) == [] then old(g.goal)[job := tip] else old(g.goal)
    {
      ghost var now := Refresh(g, g.head, consumed + WindowBlocks);
      var c;
      c, g := Choose(redo, next, job, target, tip, now);
      out, job, redo, next := c.out, c.job, c.redo, c.next;
    }

    method Send(ghost head: int, ghost consumed: int)
      requires Seen(head, consumed) && g.b.hand == {} && out
      modifies this`out, this`inflight, this`fly, this`g
      ensures Seen(head, consumed) && g.b.hand == {} && !out && fly == old(fly) + {job} && g.goal == old(g.goal)
    {
      g := DoSend(g, job);
      out, inflight, fly := false, inflight + 1, fly + {job};
    }

    method Receive(r: Result, ghost head: int, ghost consumed: int)
      requires Seen(head, consumed) && g.b.hand == {} && r.span in fly && Numbered(r)
      modifies this`inflight, this`fly, this`pending, this`g
      ensures Seen(head, consumed) && g.b.hand == {} && fly == old(fly) - {r.span}
      ensures pending == old(pending)[r.span.lo := r]
      ensures g.goal == old(g.goal)
    {
      g := DoArrive(g, r);
      inflight, fly, pending := inflight - 1, fly - {r.span}, pending[r.span.lo := r];
    }

    /** The select: a ready job goes to a worker, or any worker answers its span
        with blocks numbered as asked, or nothing happens. */
    method Select()
      requires Inv() && g.b.hand == {}
      modifies this`out, this`inflight, this`fly, this`pending, this`g
      ensures Inv() && g.b.hand == {} && g.goal == old(g.goal)
    {
      var send: bool := *;
      var r: Result := *;
      if send && out {
        Send(q.head, q.consumed);
      } else if r.span in fly && Numbered(r) {
        Receive(r, q.head, q.consumed);
      }
    }

    /** Any number of rounds of the loop of forward. */
    method Run(rounds: nat)
      requires Inv() && g.b.hand == {}
      modifies this, q
      ensures Inv() && g.b.hand == {}
    {
      for i := 0 to rounds
        invariant Inv() && g.b.hand == {}
      {
        JoinAll();
        var tip: nat, full: bool := *, *;
        Plan(tip, full);
        Select();
        Others(q);
      }
    }
  }
}
