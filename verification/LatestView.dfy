/** latest/view.go: overlays over runs, newest first; the merging iterator and
    the checkpoint that writes a view out as one run. */
module LatestView {
  import opened Bytes
  import opened LatestRun
  import opened LatestIter
  import opened LatestOverlay
  import opened LatestMerge

  /** The Iterator interface: a run's or an overlay's. */
  datatype Source = OfRun(run: RunIter) | OfSlab(slab: SlabIter) {
    ghost function Obj(): object {
      match this
      case OfRun(r) => r
      case OfSlab(s) => s
    }

    ghost function Items(): seq<Entry> {
      match this
      case OfRun(r) => r.items
      case OfSlab(s) => s.items
    }

    ghost predicate Fixed() {
      match this
      case OfRun(r) => r.Fixed()
      case OfSlab(s) => s.Fixed()
    }

    /** The index in Items() of the entry under the iterator. */
    ghost function Cur(): int
      reads Obj()
    {
      match this
      case OfRun(r) => r.cur
      case OfSlab(s) => s.i
    }

    ghost predicate Ready()
      reads Obj()
    {
      Fixed() && -1 <= Cur() && match this { case OfRun(r) => r.Moving() case OfSlab(s) => true }
    }

    /** The iterator sits on entry c of the list, or past its end. */
    ghost predicate At(level: seq<Entry>, c: nat, live: bool)
      reads Obj()
    {
      Ready() && Items() == level && Cur() == c && live == (c < |level|)
    }

    method Next() returns (ok: bool)
      requires Ready() && Cur() < |Items()|
      modifies Obj()
      ensures Ready() && Cur() == old(Cur()) + 1 && ok == (Cur() < |Items()|)
    {
      match this
      case OfRun(r) => ok := r.Next();
      case OfSlab(s) => ok := s.Next();
    }

    function Key(): (k: bytes)
      requires Ready() && 0 <= Cur() < |Items()|
      reads Obj()
      ensures k == Items()[Cur()].key
    {
      match this
      case OfRun(r) => r.c.key
      case OfSlab(s) =>
        assert SlotIs(s.slab, s.offs[s.i], s.items[s.i].key, s.items[s.i].value);
        KeyAt(s.slab, s.offs[s.i])
    }

    function Value(): (v: bytes)
      requires Ready() && 0 <= Cur() < |Items()|
      reads Obj()
      ensures v == Items()[Cur()].value
    {
      match this
      case OfRun(r) => r.val
      case OfSlab(s) =>
        assert SlotIs(s.slab, s.offs[s.i], s.items[s.i].key, s.items[s.i].value);
        ValueAt(s.slab, s.offs[s.i])
    }
  }

  /** Iterators just started: each sits on the first item of its list. */
  ghost predicate Started(its: seq<Source>, live: seq<bool>, levels: Levels)
    reads set s | s in its :: s.Obj()
  {
    && |its| == |live| == |levels|
    && (forall i, j :: 0 <= i < j < |its| ==> its[i].Obj() != its[j].Obj())
    && (forall i :: 0 <= i < |its| ==> its[i].At(levels[i], 0, live[i]))
  }

  lemma StartedMore(its: seq<Source>, live: seq<bool>, levels: Levels, s: Source, ok: bool)
    requires Started(its, live, levels) && s.At(s.Items(), 0, ok)
    requires forall i :: 0 <= i < |its| ==> its[i].Obj() != s.Obj()
    ensures Started(its + [s], live + [ok], levels + [s.Items()])
  {
  }

  class MergeIter {
    const its: seq<Source> // newest first
    var live: seq<bool>
    var key: bytes
    var val: bytes
    var have: bool
    ghost const levels: Levels
    ghost var cur: seq<nat>
    ghost var bound: Bound
    ghost var out: seq<Entry> // the pairs yielded so far

    ghost const objs: set<object> // the iterators

    ghost predicate Distinct() {
      && (forall i, j :: 0 <= i < j < |its| ==> its[i].Obj() != its[j].Obj())
      && (forall i :: 0 <= i < |its| ==> its[i].Obj() in objs) && this !in objs
    }

    /** The iterators are where cur says they are. */
    ghost predicate Synced()
      reads this, objs
    {
      && Distinct() && |its| == |live| == |levels| && HeadsIn(levels, cur)
      && (forall i :: 0 <= i < |its| ==> its[i].At(levels[i], cur[i], live[i]))
    }

    constructor (its: seq<Source>, live: seq<bool>, ghost levels: Levels)
      requires Started(its, live, levels) && AllAscending(levels)
      ensures Valid() && this.its == its && this.levels == levels && bound == Start && out == []
      ensures objs == set s | s in its :: s.Obj()
    {
      this.its, this.live, this.levels, objs := its, live, levels, set s | s in its :: s.Obj();
      key, val, have := [], [], false;
      cur, bound, out := seq(|levels|, _ => 0), Start, [];
    }

    /** Move one level on if it is still sitting on the key. */
    method StepLevel(i: nat)
      requires Synced() && i < |its|
      modifies this`live, this`cur, its[i].Obj()
      ensures Synced()
      ensures var c := old(cur)[i];
              cur == old(cur)[i := if c < |levels[i]| && levels[i][c].key == key then c + 1 else c]
    {
      assert its[i].At(levels[i], cur[i], live[i]);
      if live[i] && its[i].Key() == key {
        var ok := its[i].Next();
        live, cur := live[i := ok], cur[i := cur[i] + 1];
        assert its[i].At(levels[i], cur[i], live[i]);
        forall j | 0 <= j < |its| && j != i ensures its[j].At(levels[j], cur[j], live[j]) {
          assert its[j].Obj() != its[i].Obj() && its[j].Obj() in objs;
        }
      }
    }

    /** The first half of a round: move every level still sitting on the key. */
    method AdvancePast()
      requires Synced() && AllAscending(levels) && Sitting(levels, cur, key)
      modifies this`live, this`cur, objs
      ensures Synced() && Past(levels, cur, UpTo(key))
    {
      var i := 0;
      while i < |its|
        invariant i <= |its| && Synced()
        invariant forall j :: 0 <= j < i ==> HeadPast(levels[j], cur[j], UpTo(key))
        invariant forall j :: i <= j < |its| ==> cur[j] == old(cur)[j]
      {
        assert HeadSits(levels[i], old(cur)[i], key);
        StepOver(levels[i], cur[i], key);
        StepLevel(i);
        i := i + 1;
      }
    }

    /** The second half of a round: the newest of the smallest heads, or -1. */
    method Best() returns (best: int)
      requires Synced()
      ensures best < 0 ==> forall i :: 0 <= i < |levels| ==> cur[i] == |levels[i]|
      ensures best >= 0 ==> IsBest(levels, cur, best)
    {
      best := -1;
      var i := 0;
      while i < |its|
        invariant i <= |its| && -1 <= best < i
        invariant best < 0 ==> forall j :: 0 <= j < i ==> cur[j] == |levels[j]|
        invariant best >= 0 ==> cur[best] < |levels[best]| && BestOf(levels, cur, best, i)
      {
        var l, k := Head(i);
        if l {
          if best < 0 {
            BestFirst(levels, cur, i);
            best := i;
          } else {
            BestStep(levels, cur, best, i);
            var _, bk := Head(best);
            if Less(k, bk) { best := i; }
          }
        }
        i := i + 1;
      }
    }

    /** The key level i sits on, if it is live. */
    method Head(i: nat) returns (l: bool, k: bytes)
      requires Synced() && i < |its|
      ensures l == (cur[i] < |levels[i]|) && (l ==> k == levels[i][cur[i]].key)
    {
      assert its[i].At(levels[i], cur[i], live[i]);
      l, k := live[i], [];
      if l { k := its[i].Key(); }
    }

    /** The merge's own state, apart from where the iterators are. */
    ghost predicate Merging()
      reads this
      requires HeadsIn(levels, cur)
    {
      && AllAscending(levels) && Emitted(levels, out, bound)
      && have == bound.UpTo?
      && (bound.UpTo? ==> bound.key == key && Sitting(levels, cur, key))
      && (!bound.UpTo? ==> Past(levels, cur, bound))
    }

    ghost predicate Valid()
      reads this, objs
    {
      Synced() && Merging()
    }

    /** Take the best head, or end the merge. */
    method Pick() returns (more: bool)
      requires Synced() && AllAscending(levels) && Emitted(levels, out, bound) && Past(levels, cur, bound)
      modifies this`key, this`val, this`have, this`bound, this`out
      ensures Merging()
      ensures more ==> bound == UpTo(key) && !Done(key, old(bound)) && out == Emit(old(out), Entry(key, val))
      ensures more ==> HasHead(levels, key)
      ensures !more ==> bound == End && out == old(out)
    {
      var best := Best();
      if best < 0 {
        if bound != End { NoneLeft(levels, cur, bound, out); }
        have, bound := false, End;
        return false;
      }
      assert its[best].At(levels[best], cur[best], live[best]);
      PickSits(levels, cur, bound, best);
      PickEmits(levels, cur, bound, best, out);
      ghost var e := levels[best][cur[best]];
      key, val, have := its[best].Key(), its[best].Value(), true;
      bound, out := UpTo(e.key), Emit(out, e);
      assert HasHead(levels, key);
      more := true;
    }

    /** One round: pick the smallest key not dealt with; a deletion is not emitted. */
    method Round() returns (more: bool)
      requires Valid()
      modifies this`live, this`cur, this`key, this`val, this`have, this`bound, this`out, objs
      ensures Valid()
      ensures more ==> bound == UpTo(key) && !Done(key, old(bound)) && out == Emit(old(out), Entry(key, val))
      ensures more ==> HasHead(levels, key)
      ensures !more ==> bound == End && out == old(out)
    {
      if have { AdvancePast(); }
      more := Pick();
    }

    /** Next: rounds until a live pair turns up or nothing is left. */
    method Next() returns (ok: bool)
      requires Valid()
      modifies this`live, this`cur, this`key, this`val, this`have, this`bound, this`out, objs
      ensures Valid()
      ensures ok ==> val != [] && out == old(out) + [Entry(key, val)] && Left(levels, bound) < Left(levels, old(bound))
      ensures !ok ==> bound == End && out == old(out)
    {
      while true
        invariant Valid() && out == old(out) && Left(levels, bound) <= Left(levels, old(bound))
        decreases Left(levels, bound)
      {
        ghost var before := bound;
        ok := Round();
        if !ok { return; }
        LeftShrinks(levels, before, key);
        if val != [] { return; }
      }
    }
  }

  // -------------------------------------------------------------------- view

  type Map = map<bytes, bytes>

  /** The specification of a view: the first level that has the key decides, and
      an empty value there means the key is absent. */
  ghost function Resolve(maps: seq<Map>, k: bytes): Option<bytes> {
    if maps == [] then None
    else if k in maps[0] then (if maps[0][k] == [] then None else Some(maps[0][k]))
    else Resolve(maps[1..], k)
  }

  lemma {:induction false} ResolveSkip(maps: seq<Map>, k: bytes, n: nat)
    requires n <= |maps| && forall i :: 0 <= i < n ==> k !in maps[i]
    ensures Resolve(maps, k) == Resolve(maps[n..], k)
    decreases n
  {
    if n > 0 {
      ResolveSkip(maps[1..], k, n - 1);
      assert maps[1..][n - 1..] == maps[n..];
    }
  }

  lemma ResolveAt(maps: seq<Map>, k: bytes, n: nat)
    requires n < |maps| && k in maps[n] && forall i :: 0 <= i < n ==> k !in maps[i]
    ensures Resolve(maps, k) == if maps[n][k] == [] then None else Some(maps[n][k])
  {
    ResolveSkip(maps, k, n);
  }

  ghost function OverlayMaps(overlays: seq<Overlay>): (maps: seq<Map>)
    reads overlays
    ensures |maps| == |overlays| && forall i :: 0 <= i < |maps| ==> maps[i] == overlays[i].Contents()
  {
    if overlays == [] then [] else [overlays[0].Contents()] + OverlayMaps(overlays[1..])
  }

  ghost function RunMaps(reps: seq<Rep>): (maps: seq<Map>)
    ensures |maps| == |reps| && forall i :: 0 <= i < |maps| ==> maps[i] == AsMap(reps[i].es)
  {
    if reps == [] then [] else [AsMap(reps[0].es)] + RunMaps(reps[1..])
  }

  class View {
    const overlays: seq<Overlay> // newest first
    const runs: seq<Run> // newest first
    ghost const reps: seq<Rep>

    ghost predicate Valid()
      reads overlays
    {
      && |reps| == |runs|
      && (forall i :: 0 <= i < |runs| ==> runs[i] == reps[i].run)
      && (forall i :: 0 <= i < |overlays| ==> overlays[i].Valid())
    }

    ghost function Maps(): seq<Map>
      reads overlays
    {
      OverlayMaps(overlays) + RunMaps(reps)
    }

    constructor (overlays: seq<Overlay>, runs: seq<Run>, ghost reps: seq<Rep>)
      requires |reps| == |runs| && (forall i :: 0 <= i < |runs| ==> runs[i] == reps[i].run)
      requires forall i :: 0 <= i < |overlays| ==> overlays[i].Valid()
      ensures Valid() && this.overlays == overlays && this.runs == runs && this.reps == reps
    {
      this.overlays, this.runs, this.reps := overlays, runs, reps;
    }

    /** The first loop of Get: the newest overlay that has the key. */
    method GetOverlays(key: bytes, ghost above: seq<Map>) returns (i: nat, val: bytes)
      requires |above| == |overlays|
      requires forall j {:trigger overlays[j]} :: 0 <= j < |overlays| ==>
                 overlays[j].Valid() && above[j] == overlays[j].Contents()
      ensures i <= |above| && (forall j :: 0 <= j < i ==> key !in above[j])
      ensures i < |above| ==> key in above[i] && above[i][key] == val
    {
      i, val := 0, [];
      while i < |overlays|
        invariant i <= |overlays| && val == [] && forall j :: 0 <= j < i ==> key !in above[j]
      {
        var o := overlays[i];
        assert o.Valid() && above[i] == o.Contents();
        var v := o.Get(key);
        if v.Some? { return i, v.value; }
        i := i + 1;
      }
    }

    /** The overlays' iterators, each advanced to its head. */
    method StartOverlays(lo: Option<bytes>, hi: Option<bytes>, ghost maps: seq<Map>)
      returns (its: seq<Source>, live: seq<bool>, ghost levels: Levels)
      requires |maps| == |overlays|
      requires forall j {:trigger overlays[j]} :: 0 <= j < |overlays| ==>
                 overlays[j].Valid() && maps[j] == overlays[j].Contents()
      ensures Started(its, live, levels) && AllFresh(its) && AllList(levels, maps, lo, hi)
    {
      its, live, levels := [], [], [];
      var i := 0;
      while i < |overlays|
        invariant i <= |overlays|
        invariant Started(its, live, levels) && AllFresh(its) && AllList(levels, maps[..i], lo, hi)
      {
        var s, ok := StartOverlay(overlays[i], lo, hi, its, live, levels);
        ListMore(levels, maps, i, s.Items(), lo, hi);
        its, live, levels := its + [s], live + [ok], levels + [s.Items()];
        i := i + 1;
      }
      assert maps[..i] == maps;
    }

    /** Iter over [lo, hi): one iterator per level, each advanced to its head. */
    method Iter(lo: Option<bytes>, hi: Option<bytes>) returns (m: MergeIter)
      requires Valid()
      ensures fresh(m) && fresh(m.objs) && m.Valid() && m.bound == Start && m.out == []
      ensures AllList(m.levels, Maps(), lo, hi)
    {
      ghost var above, below := OverlayMaps(overlays), RunMaps(reps);
      var its, live;
      ghost var levels: Levels;
      its, live, levels := StartOverlays(lo, hi, above);
      its, live, levels := StartRuns(its, live, runs, lo, hi, levels, above, reps, below);
      ListAscending(levels, above + below, lo, hi);
      m := new MergeIter(its, live, levels);
    }

    /** Get consults the overlays, then the runs; a deletion ends the descent. */
    method Get(key: bytes) returns (val: Option<bytes>)
      requires Valid()
      ensures val == Resolve(Maps(), key)
    {
      ghost var above, below := OverlayMaps(overlays), RunMaps(reps);
      var i, v := GetOverlays(key, above);
      if i < |overlays| {
        ResolveAt(above + below, key, i);
        return if v == [] then None else Some(v);
      }
      ResolveBelow(above, below, key);
      val := GetRuns(runs, key, reps, below);
    }
  }

  twostate predicate AllFresh(new its: seq<Source>) {
    forall i :: 0 <= i < |its| ==> fresh(its[i].Obj())
  }

  method OpenOverlay(o: Overlay, lo: Option<bytes>, hi: Option<bytes>) returns (s: Source, ok: bool)
    requires o.Valid()
    ensures fresh(s.Obj()) && s.At(s.Items(), 0, ok) && Lists(s.Items(), o.Contents(), lo, hi)
  {
    var it := o.Iter(lo, hi);
    s := OfSlab(it);
    ok := s.Next();
  }

  method StartOverlay(o: Overlay, lo: Option<bytes>, hi: Option<bytes>, its: seq<Source>, live: seq<bool>,
                      ghost levels: Levels)
    returns (s: Source, ok: bool)
    requires o.Valid() && Started(its, live, levels)
    ensures fresh(s.Obj()) && Lists(s.Items(), o.Contents(), lo, hi)
    ensures Started(its + [s], live + [ok], levels + [s.Items()])
  {
    s, ok := OpenOverlay(o, lo, hi);
    StartedMore(its, live, levels, s, ok);
  }

  method OpenRun(r: Run, lo: Option<bytes>, hi: Option<bytes>, ghost rep: Rep) returns (s: Source, ok: bool)
    requires r == rep.run
    ensures fresh(s.Obj()) && s.At(s.Items(), 0, ok) && Lists(s.Items(), AsMap(rep.es), lo, hi)
  {
    var it := NewRunIter(r, lo, hi, rep);
    RunLists(rep.es, lo, hi);
    s := OfRun(it);
    ok := s.Next();
  }

  method StartRun(r: Run, lo: Option<bytes>, hi: Option<bytes>, ghost rep: Rep, its: seq<Source>, live: seq<bool>,
                  ghost levels: Levels)
    returns (s: Source, ok: bool)
    requires r == rep.run && Started(its, live, levels)
    ensures fresh(s.Obj()) && Lists(s.Items(), AsMap(rep.es), lo, hi)
    ensures Started(its + [s], live + [ok], levels + [s.Items()])
  {
    s, ok := OpenRun(r, lo, hi, rep);
    StartedMore(its, live, levels, s, ok);
  }

  /** The runs' iterators, added below the overlays' and advanced to their heads. */
  method StartRuns(its0: seq<Source>, live0: seq<bool>, runs: seq<Run>, lo: Option<bytes>, hi: Option<bytes>,
                   ghost levels0: Levels, ghost above: seq<Map>, ghost reps: seq<Rep>, ghost maps: seq<Map>)
    returns (its: seq<Source>, live: seq<bool>, ghost levels: Levels)
    requires Started(its0, live0, levels0) && AllList(levels0, above, lo, hi)
    requires |maps| == |runs| == |reps|
    requires forall j {:trigger runs[j]} :: 0 <= j < |runs| ==> runs[j] == reps[j].run && maps[j] == AsMap(reps[j].es)
    ensures Started(its, live, levels) && AllList(levels, above + maps, lo, hi)
    ensures its0 <= its && AllFresh(its[|its0|..])
  {
    its, live, levels := its0, live0, levels0;
    var i := 0;
    assert (above + maps)[..|above|] == above;
    while i < |runs|
      invariant i <= |runs| && its0 <= its && AllFresh(its[|its0|..])
      invariant Started(its, live, levels) && AllList(levels, (above + maps)[..|above| + i], lo, hi)
    {
      var s, ok := StartRun(runs[i], lo, hi, reps[i], its, live, levels);
      ListMore(levels, above + maps, |above| + i, s.Items(), lo, hi);
      DropConcat(its, [s], |its0|);
      its, live, levels := its + [s], live + [ok], levels + [s.Items()];
      i := i + 1;
    }
    assert (above + maps)[..|above| + i] == above + maps;
  }

  ghost predicate AllList(levels: Levels, maps: seq<Map>, lo: Option<bytes>, hi: Option<bytes>) {
    |levels| == |maps| && forall i :: 0 <= i < |levels| ==> Lists(levels[i], maps[i], lo, hi)
  }

  lemma ListAscending(levels: Levels, maps: seq<Map>, lo: Option<bytes>, hi: Option<bytes>)
    requires AllList(levels, maps, lo, hi)
    ensures AllAscending(levels)
  {
  }

  lemma ListMore(levels: Levels, maps: seq<Map>, i: nat, items: seq<Entry>, lo: Option<bytes>, hi: Option<bytes>)
    requires i < |maps| && AllList(levels, maps[..i], lo, hi) && Lists(items, maps[i], lo, hi)
    ensures AllList(levels + [items], maps[..i + 1], lo, hi)
  {
  }

  lemma ListsLookup(items: seq<Entry>, level: Map, lo: Option<bytes>, hi: Option<bytes>, k: bytes)
    requires Lists(items, level, lo, hi)
    ensures Lookup(items, k) == if k in level && InRange(k, lo, hi) then Some(level[k]) else None
  {
    if k in level && InRange(k, lo, hi) {
      assert HasKey(items, k);
      var j :| 0 <= j < |items| && items[j].key == k;
      assert InLevel(items[j], level);
      LookupAt(items, k, j);
    } else {
      forall j | 0 <= j < |items| ensures items[j].key != k { assert InLevel(items[j], level); }
      LookupAbsent(items, k);
    }
  }

  /** What the merge calls a live pair is what View.Get finds. */
  lemma {:induction false} NewestResolves(levels: Levels, maps: seq<Map>, lo: Option<bytes>, hi: Option<bytes>,
                              k: bytes)
    requires AllList(levels, maps, lo, hi)
    ensures !InRange(k, lo, hi) ==> Newest(levels, k) == None
    ensures InRange(k, lo, hi) ==>
              Resolve(maps, k) ==
              if Newest(levels, k).Some? && Newest(levels, k).value != [] then Newest(levels, k) else None
    decreases |levels|
  {
    if levels != [] {
      ListsLookup(levels[0], maps[0], lo, hi, k);
      NewestResolves(levels[1..], maps[1..], lo, hi, k);
    }
  }

  /** A finished iteration yields, in ascending key order, exactly the pairs that
      View.Get finds in the range. */
  lemma IterIsGet(levels: Levels, maps: seq<Map>, lo: Option<bytes>, hi: Option<bytes>, out: seq<Entry>)
    requires AllList(levels, maps, lo, hi) && Emitted(levels, out, End)
    ensures Ascending(out)
    ensures forall k, v :: Entry(k, v) in out <==> InRange(k, lo, hi) && Resolve(maps, k) == Some(v)
  {
    forall k, v ensures Entry(k, v) in out <==> InRange(k, lo, hi) && Resolve(maps, k) == Some(v) {
      NewestResolves(levels, maps, lo, hi, k);
      if Entry(k, v) in out {
        var j :| 0 <= j < |out| && out[j] == Entry(k, v);
        assert LivePair(levels, out[j]);
      } else {
        assert Survives(levels, k) ==> Entry(k, Newest(levels, k).value) in out;
      }
    }
  }

  lemma ResolveBelow(above: seq<Map>, below: seq<Map>, k: bytes)
    requires forall i :: 0 <= i < |above| ==> k !in above[i]
    ensures Resolve(above + below, k) == Resolve(below, k)
  {
    ResolveSkip(above + below, k, |above|);
    assert (above + below)[|above|..] == below;
  }

  /** The second loop of View.Get. */
  method GetRuns(runs: seq<Run>, key: bytes, ghost reps: seq<Rep>, ghost maps: seq<Map>) returns (val: Option<bytes>)
    requires |reps| == |runs| == |maps|
    requires forall j {:trigger runs[j]} :: 0 <= j < |runs| ==> runs[j] == reps[j].run && maps[j] == AsMap(reps[j].es)
    ensures val == Resolve(maps, key)
  {
    var i := 0;
    while i < |runs|
      invariant i <= |runs| && forall j :: 0 <= j < i ==> key !in maps[j]
    {
      var v := GetRun(runs[i], key, reps[i]);
      if v.Some? {
        ResolveAt(maps, key, i);
        return if v.value == [] then None else v;
      }
      i := i + 1;
    }
    ResolveSkip(maps, key, |maps|);
    return None;
  }

  method GetRun(r: Run, key: bytes, ghost rep: Rep) returns (val: Option<bytes>)
    requires r == rep.run
    ensures val == if key in AsMap(rep.es) then Some(AsMap(rep.es)[key]) else None
  {
    AsMapIs(rep.es, key);
    val := LatestRun.Get(r, key, rep.es, rep.starts);
  }

  /** The keys still to come; it bounds the number of rounds. */
  ghost function Left(levels: Levels, bound: Bound): set<bytes> {
    set i, j | 0 <= i < |levels| && 0 <= j < |levels[i]| && !Done(levels[i][j].key, bound) :: levels[i][j].key
  }

  lemma LeftShrinks(levels: Levels, bound: Bound, key: bytes)
    requires HasHead(levels, key) && !Done(key, bound)
    ensures Left(levels, UpTo(key)) < Left(levels, bound)
  {
    var i, j :| 0 <= i < |levels| && 0 <= j < |levels[i]| && levels[i][j].key == key;
    assert key in Left(levels, bound) && key !in Left(levels, UpTo(key));
    forall k | k in Left(levels, UpTo(key)) ensures k in Left(levels, bound) {
      var a, b :| && 0 <= a < |levels| && 0 <= b < |levels[a]|
                  && !Done(levels[a][b].key, UpTo(key)) && levels[a][b].key == k;
      if Done(k, bound) { DoneEarlier(k, key, bound); }
    }
  }

  lemma DoneEarlier(k: bytes, key: bytes, bound: Bound)
    requires Done(k, bound) && !Done(key, bound)
    ensures Leq(k, key)
  {
    LeqNotLess(k, key);
    if Less(key, k) { LeqTransitive(key, k, bound.key); }
  }

  ghost predicate HasHead(levels: Levels, k: bytes) {
    exists i, j :: 0 <= i < |levels| && 0 <= j < |levels[i]| && levels[i][j].key == k
  }

  /** best is right among the first n levels. */
  ghost predicate BestOf(levels: Levels, cur: seq<nat>, best: nat, n: nat)
    requires HeadsIn(levels, cur) && best < |levels| && cur[best] < |levels[best]| && n <= |levels|
  {
    forall i :: 0 <= i < n && cur[i] < |levels[i]| ==>
      var key := levels[best][cur[best]].key;
      !Less(levels[i][cur[i]].key, key) && (i < best ==> levels[i][cur[i]].key != key)
  }

  lemma BestFirst(levels: Levels, cur: seq<nat>, i: nat)
    requires HeadsIn(levels, cur) && i < |levels| && cur[i] < |levels[i]|
    requires forall j :: 0 <= j < i ==> cur[j] == |levels[j]|
    ensures BestOf(levels, cur, i, i + 1)
  {
    LessIrreflexive(levels[i][cur[i]].key);
  }

  lemma BestStep(levels: Levels, cur: seq<nat>, best: nat, i: nat)
    requires HeadsIn(levels, cur) && best < i < |levels| && cur[best] < |levels[best]| && cur[i] < |levels[i]|
    requires BestOf(levels, cur, best, i)
    ensures Less(levels[i][cur[i]].key, levels[best][cur[best]].key) ==> BestOf(levels, cur, i, i + 1)
    ensures !Less(levels[i][cur[i]].key, levels[best][cur[best]].key) ==> BestOf(levels, cur, best, i + 1)
  {
    var a, b := levels[i][cur[i]].key, levels[best][cur[best]].key;
    if Less(a, b) {
      LessIrreflexive(a);
      forall j | 0 <= j < i && cur[j] < |levels[j]|
        ensures !Less(levels[j][cur[j]].key, a) && levels[j][cur[j]].key != a
      {
        var c := levels[j][cur[j]].key;
        LeqNotLess(b, c);
        LeqLessTransitive(a, b, c);
        LessAsymmetric(a, c);
      }
    }
  }

  // -------------------------------------------------------------- checkpoint

  ghost predicate ValidMap(m: Map) {
    forall k {:trigger k in m} :: k in m ==> ValidEntry(Entry(k, m[k]))
  }

  lemma SoundValid(m: Sound)
    ensures ValidMap(m.contents)
  {
    forall k {:trigger k in m.contents} | k in m.contents
      ensures ValidEntry(Entry(k, m.contents[k]))
    {
      FoundLive(m, k);
    }
  }

  lemma RepValid(rep: Rep)
    ensures ValidMap(AsMap(rep.es))
  {
    forall k {:trigger k in AsMap(rep.es)} | k in AsMap(rep.es) ensures ValidEntry(Entry(k, AsMap(rep.es)[k])) {
      AsMapIs(rep.es, k);
      LookupHasKey(rep.es, k);
      var j :| 0 <= j < |rep.es| && rep.es[j].key == k;
      LookupAt(rep.es, k, j);
    }
  }

  lemma {:induction false} ResolveValid(maps: seq<Map>, k: bytes)
    requires Resolve(maps, k).Some? && forall i :: 0 <= i < |maps| ==> ValidMap(maps[i])
    ensures ValidEntry(Entry(k, Resolve(maps, k).value))
  {
    assert ValidMap(maps[0]);
    if k !in maps[0] { ResolveValid(maps[1..], k); }
  }

  lemma ViewValid(v: View)
    requires v.Valid()
    ensures forall i :: 0 <= i < |v.Maps()| ==> ValidMap(v.Maps()[i])
  {
    forall i | 0 <= i < |v.Maps()| ensures ValidMap(v.Maps()[i]) {
      if i < |v.overlays| { SoundValid(v.overlays[i].mem); } else { RepValid(v.reps[i - |v.overlays|]); }
    }
  }

  /** The next merged pair is acceptable to Writer.Add. */
  lemma NextFits(levels: Levels, maps: seq<Map>, before: seq<Entry>, e: Entry, bound: Bound)
    requires AllList(levels, maps, None, None) && (forall i :: 0 <= i < |maps| ==> ValidMap(maps[i]))
    requires Emitted(levels, before + [e], bound)
    ensures ValidEntry(e) && (before != [] ==> Less(before[|before| - 1].key, e.key))
  {
    var out := before + [e];
    assert LivePair(levels, out[|before|]);
    NewestResolves(levels, maps, None, None, e.key);
    ResolveValid(maps, e.key);
    assert before != [] ==> Less(out[|before| - 1].key, out[|before|].key);
  }

  /** The streaming half of Merge: Add never refuses a merged pair. */
  method Stream(v: View, user: bytes) returns (w: Writer)
    requires v.Valid() && |user| == 32
    ensures fresh(w) && w.Valid() && w.user == user && AnswersAs(w.Entries(), v.Maps())
  {
    ghost var maps := v.Maps();
    ViewValid(v);
    w := new Writer(user);
    var it := v.Iter(None, None);
    Drain(it, w, maps);
    MergedIsView(it.levels, maps, w.Entries());
  }

  ghost predicate AnswersAs(es: seq<Entry>, maps: seq<Map>) {
    forall k {:trigger Lookup(es, k)} :: Lookup(es, k) == Resolve(maps, k)
  }

  /** Merge streams the view into a writer. The run that Open finds in the file
      answers every key as the view does. */
  method Merge(v: View, user: bytes, crc: bytes -> u32) returns (file: bytes)
    requires v.Valid() && |user| == 32
    ensures |file| < Pow256(8) ==> exists es, starts {:trigger Opens(file, crc, es, starts, user)} ::
              Opens(file, crc, es, starts, user) && AnswersAs(es, v.Maps())
  {
    var w := Stream(v, user);
    file := w.Close(crc);
    OpensClosed(w.st, user, crc);
  }

  twostate lemma StillValid(it: MergeIter)
    requires old(it.Valid()) && unchanged(it) && unchanged(it.objs)
    ensures it.Valid()
  {
  }

  /** One step of Merge: the pair under the iterator is added. */
  method AddPair(it: MergeIter, w: Writer, ghost maps: seq<Map>)
    requires it.Valid() && w.Valid() && w !in it.objs && it.out == w.Entries() + [Entry(it.key, it.val)]
    requires AllList(it.levels, maps, None, None) && forall i :: 0 <= i < |maps| ==> ValidMap(maps[i])
    modifies w
    ensures it.Valid() && w.Valid() && w.Entries() == it.out
  {
    NextFits(it.levels, maps, w.Entries(), Entry(it.key, it.val), it.bound);
    var added := w.Add(it.key, it.val);
    assert added;
    StillValid(it);
  }

  /** The loop of Merge: every pair the merge yields is added. */
  method Drain(it: MergeIter, w: Writer, ghost maps: seq<Map>)
    requires it.Valid() && it.out == [] && w.Valid() && w.Entries() == [] && w !in it.objs
    requires AllList(it.levels, maps, None, None) && forall i :: 0 <= i < |maps| ==> ValidMap(maps[i])
    modifies it, it.objs, w
    ensures w.Valid() && Emitted(it.levels, w.Entries(), End)
  {
    while true
      invariant it.Valid() && w.Valid() && w.Entries() == it.out
      decreases Left(it.levels, it.bound)
    {
      var ok := it.Next();
      if !ok { return; }
      AddPair(it, w, maps);
    }
  }

  ghost predicate Opens(file: bytes, crc: bytes -> u32, es: seq<Entry>, starts: seq<nat>, user: bytes) {
    var r := Open(file, crc);
    r.Some? && Represents(r.value, es, starts) && r.value.user == user
  }

  lemma OpensClosed(x: Written, user: bytes, crc: bytes -> u32)
    requires |x.w.blk| == 2 && |user| == 32
    ensures var file := FileOf(x.w.out, x.w.index, x.w.n, |x.starts|, user, crc);
            |file| < Pow256(8) ==> Opens(file, crc, x.es, x.starts, user)
  {
    var file := FileOf(x.w.out, x.w.index, x.w.n, |x.starts|, user, crc);
    if |file| < Pow256(8) { OpenWritten(x.w, user, x.es, x.starts, crc); }
  }

  lemma MergedIsView(levels: Levels, maps: seq<Map>, es: seq<Entry>)
    requires AllList(levels, maps, None, None) && Emitted(levels, es, End)
    ensures AnswersAs(es, maps)
  {
    IterIsGet(levels, maps, None, None, es);
    forall k {:trigger Lookup(es, k)} ensures Lookup(es, k) == Resolve(maps, k) {
      if Resolve(maps, k).Some? {
        assert Entry(k, Resolve(maps, k).value) in es;
        var j :| 0 <= j < |es| && es[j] == Entry(k, Resolve(maps, k).value);
        LookupAt(es, k, j);
      } else {
        forall j | 0 <= j < |es| ensures es[j].key != k { assert Entry(es[j].key, es[j].value) in es; }
        LookupAbsent(es, k);
      }
    }
  }

  /** The checkpoint swap: a run that answers as the frozen overlay over the base
      does can replace both under any newer overlays, deletions included. */
  lemma {:induction false} SwapIsInvisible(newer: seq<Map>, below: seq<Map>, merged: Map, k: bytes)
    requires Resolve(below, k) == if k in merged then Some(merged[k]) else None
    requires k in merged ==> merged[k] != []
    ensures Resolve(newer + below, k) == Resolve(newer + [merged], k)
  {
    if newer == [] {
      assert newer + below == below && newer + [merged] == [merged];
    } else {
      assert (newer + below)[1..] == newer[1..] + below && (newer + [merged])[1..] == newer[1..] + [merged];
      SwapIsInvisible(newer[1..], below, merged, k);
    }
  }

  lemma {:induction false} ResolveLive(maps: seq<Map>, k: bytes)
    ensures Resolve(maps, k) != Some([])
  {
    if maps != [] { ResolveLive(maps[1..], k); }
  }

  /** So the run that Merge leaves can replace what it was merged from. */
  lemma MergeIsInvisible(newer: seq<Map>, below: seq<Map>, es: seq<Entry>, k: bytes)
    requires AnswersAs(es, below)
    ensures Resolve(newer + below, k) == Resolve(newer + [AsMap(es)], k)
  {
    AsMapIs(es, k);
    ResolveLive(below, k);
    assert Lookup(es, k) == Resolve(below, k);
    SwapIsInvisible(newer, below, AsMap(es), k);
  }
}
