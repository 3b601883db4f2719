/** latest/view.go, the k-way merge: levels are sorted lists, newest first; the
    newest level that has a key decides its value, and an empty value drops it.
    This module is the reasoning; LatestView holds the iterator. */
module LatestMerge {
  import opened Bytes
  import opened LatestRun

  type Levels = seq<seq<Entry>>

  ghost predicate AllAscending(levels: Levels) {
    forall i :: 0 <= i < |levels| ==> Ascending(levels[i])
  }

  /** The value of k in the newest level that has k, deletions included. */
  ghost function Newest(levels: Levels, k: bytes): Option<bytes> {
    if levels == [] then None
    else if Lookup(levels[0], k).Some? then Lookup(levels[0], k)
    else Newest(levels[1..], k)
  }

  lemma {:induction false} NewestAt(levels: Levels, k: bytes, b: nat)
    requires b < |levels| && Lookup(levels[b], k).Some?
    requires forall i :: 0 <= i < b ==> Lookup(levels[i], k) == None
    ensures Newest(levels, k) == Lookup(levels[b], k)
  {
    if b > 0 { NewestAt(levels[1..], k, b - 1); }
  }

  lemma {:induction false} NewestNone(levels: Levels, k: bytes)
    requires forall i :: 0 <= i < |levels| ==> Lookup(levels[i], k) == None
    ensures Newest(levels, k) == None
  {
    if levels != [] { NewestNone(levels[1..], k); }
  }

  /** How far the merge has gone: the keys it has dealt with. */
  datatype Bound = Start | UpTo(key: bytes) | End

  ghost predicate Done(k: bytes, bound: Bound) {
    match bound
    case Start => false
    case UpTo(key) => Leq(k, key)
    case End => true
  }

  /** cur[i] is the head of level i: everything before it has been dealt with. */
  ghost predicate HeadsIn(levels: Levels, cur: seq<nat>) {
    |cur| == |levels| && forall i :: 0 <= i < |cur| ==> cur[i] <= |levels[i]|
  }

  /** Every head is past the bound. */
  ghost predicate Past(levels: Levels, cur: seq<nat>, bound: Bound)
    requires HeadsIn(levels, cur)
  {
    forall i :: 0 <= i < |levels| ==> HeadPast(levels[i], cur[i], bound)
  }

  ghost predicate HeadPast(level: seq<Entry>, c: nat, bound: Bound)
    requires c <= |level|
  {
    && (forall j :: 0 <= j < c ==> Done(level[j].key, bound))
    && (forall j :: c <= j < |level| ==> !Done(level[j].key, bound))
  }

  /** Every head is at or past the key just dealt with. */
  ghost predicate Sitting(levels: Levels, cur: seq<nat>, key: bytes)
    requires HeadsIn(levels, cur)
  {
    forall i :: 0 <= i < |levels| ==> HeadSits(levels[i], cur[i], key)
  }

  ghost predicate HeadSits(level: seq<Entry>, c: nat, key: bytes)
    requires c <= |level|
  {
    && (forall j {:trigger Less(level[j].key, key)} :: 0 <= j < c ==> Less(level[j].key, key))
    && (forall j {:trigger Less(level[j].key, key)} :: c <= j < |level| ==> !Less(level[j].key, key))
  }

  /** Stepping over a head that equals the key, and only over that one. */
  lemma StepOver(level: seq<Entry>, c: nat, key: bytes)
    requires Ascending(level) && c <= |level| && HeadSits(level, c, key)
    ensures HeadPast(level, if c < |level| && level[c].key == key then c + 1 else c, UpTo(key))
  {
    var c' := if c < |level| && level[c].key == key then c + 1 else c;
    forall j | c' <= j < |level| ensures !Leq(level[j].key, key) {
      LeqNotLess(level[j].key, key);
      LeqNotLess(key, level[j].key);
      if j > c {
        assert Less(level[c].key, level[j].key) && !Less(level[c].key, key);
        LeqNotLess(key, level[c].key);
        LeqLessTransitive(key, level[c].key, level[j].key);
      }
    }
    forall j | 0 <= j < c' ensures Leq(level[j].key, key) {
      if j < c { assert Less(level[j].key, key); }
    }
  }

  /** A level whose head is not below key, past a bound below key, skips nothing
      in between. */
  lemma HeadMoves(level: seq<Entry>, c: nat, bound: Bound, key: bytes)
    requires Ascending(level) && c <= |level| && HeadPast(level, c, bound)
    requires !Done(key, bound) && (c < |level| ==> !Less(level[c].key, key))
    ensures HeadSits(level, c, key)
  {
    forall j | 0 <= j < c ensures Less(level[j].key, key) {
      assert Done(level[j].key, bound);
      LeqNotLess(key, level[j].key);
      if bound.UpTo? && Leq(key, level[j].key) { LeqTransitive(key, level[j].key, bound.key); }
    }
    forall j | c <= j < |level| ensures !Less(level[j].key, key) {
      LeqNotLess(key, level[c].key);
      LeqNotLess(key, level[j].key);
      if j > c {
        assert Less(level[c].key, level[j].key);
        LeqTransitive(key, level[c].key, level[j].key);
      }
    }
  }

  /** Keys strictly between the old bound and the new key are in no level. */
  lemma NothingBetween(level: seq<Entry>, c: nat, bound: Bound, key: bytes, k: bytes)
    requires Ascending(level) && c <= |level| && HeadPast(level, c, bound) && HeadSits(level, c, key)
    requires !Done(k, bound) && Less(k, key)
    ensures Lookup(level, k) == None
  {
    forall j | 0 <= j < |level| ensures level[j].key != k {
      if j < c { assert Done(level[j].key, bound); } else { assert !Less(level[j].key, key); }
    }
    LookupAbsent(level, k);
  }

  lemma HeadLookup(level: seq<Entry>, c: nat, key: bytes)
    requires Ascending(level) && c <= |level| && HeadSits(level, c, key)
    ensures Lookup(level, key) == if c < |level| && level[c].key == key then Some(level[c].value) else None
  {
    if c < |level| && level[c].key == key {
      LookupAt(level, key, c);
    } else {
      LessIrreflexive(key);
      forall j | 0 <= j < |level| ensures level[j].key != key {
        if j < c { assert Less(level[j].key, key); }
        if j > c {
          assert Less(level[c].key, level[j].key) && !Less(level[c].key, key);
          LeqNotLess(key, level[c].key);
          LeqLessTransitive(key, level[c].key, level[j].key);
        }
      }
      LookupAbsent(level, key);
    }
  }

  /** out is exactly the live pairs among the keys dealt with, in order. */
  ghost predicate Emitted(levels: Levels, out: seq<Entry>, bound: Bound) {
    && Ascending(out)
    && (forall j :: 0 <= j < |out| ==> Done(out[j].key, bound) && LivePair(levels, out[j]))
    && (forall k {:trigger Newest(levels, k)} :: Done(k, bound) && Survives(levels, k) ==>
          Entry(k, Newest(levels, k).value) in out)
  }

  ghost predicate LivePair(levels: Levels, e: Entry) {
    Newest(levels, e.key) == Some(e.value) && e.value != []
  }

  ghost predicate Survives(levels: Levels, k: bytes) {
    Newest(levels, k).Some? && Newest(levels, k).value != []
  }

  /** best is the newest level among those whose head has the smallest key. */
  ghost predicate IsBest(levels: Levels, cur: seq<nat>, best: int)
    requires HeadsIn(levels, cur)
  {
    && 0 <= best < |levels| && cur[best] < |levels[best]|
    && (forall i :: 0 <= i < |levels| && cur[i] < |levels[i]| ==>
          var key := levels[best][cur[best]].key;
          !Less(levels[i][cur[i]].key, key) && (i < best ==> levels[i][cur[i]].key != key))
  }

  /** Picking the best head moves the bound to its key. */
  lemma PickSits(levels: Levels, cur: seq<nat>, bound: Bound, best: nat)
    requires AllAscending(levels) && HeadsIn(levels, cur) && Past(levels, cur, bound) && IsBest(levels, cur, best)
    ensures !Done(levels[best][cur[best]].key, bound) && Sitting(levels, cur, levels[best][cur[best]].key)
  {
    var key := levels[best][cur[best]].key;
    assert HeadPast(levels[best], cur[best], bound);
    forall i | 0 <= i < |levels| ensures HeadSits(levels[i], cur[i], key) {
      HeadMoves(levels[i], cur[i], bound, key);
    }
  }

  lemma PickNewest(levels: Levels, cur: seq<nat>, best: nat)
    requires AllAscending(levels) && HeadsIn(levels, cur) && IsBest(levels, cur, best)
    requires Sitting(levels, cur, levels[best][cur[best]].key)
    ensures Newest(levels, levels[best][cur[best]].key) == Some(levels[best][cur[best]].value)
  {
    var key := levels[best][cur[best]].key;
    forall i | 0 <= i <= best
      ensures Lookup(levels[i], key) == if i < best then None else Some(levels[best][cur[best]].value)
    {
      assert HeadSits(levels[i], cur[i], key);
      HeadLookup(levels[i], cur[i], key);
    }
    NewestAt(levels, key, best);
  }

  lemma PickSkipsNothing(levels: Levels, cur: seq<nat>, bound: Bound, key: bytes, k: bytes)
    requires AllAscending(levels) && HeadsIn(levels, cur) && Past(levels, cur, bound) && Sitting(levels, cur, key)
    requires !Done(k, bound) && Less(k, key)
    ensures Newest(levels, k) == None
  {
    forall i | 0 <= i < |levels| ensures Lookup(levels[i], k) == None {
      assert HeadPast(levels[i], cur[i], bound) && HeadSits(levels[i], cur[i], key);
      NothingBetween(levels[i], cur[i], bound, key, k);
    }
    NewestNone(levels, k);
  }

  ghost function Emit(out: seq<Entry>, e: Entry): seq<Entry> {
    if e.value == [] then out else out + [e]
  }

  /** One round of the merge: the picked pair is emitted unless it is a deletion. */
  lemma PickEmits(levels: Levels, cur: seq<nat>, bound: Bound, best: nat, out: seq<Entry>)
    requires AllAscending(levels) && HeadsIn(levels, cur) && Past(levels, cur, bound) && IsBest(levels, cur, best)
    requires Emitted(levels, out, bound)
    ensures var e := levels[best][cur[best]];
            Sitting(levels, cur, e.key) && Emitted(levels, Emit(out, e), UpTo(e.key))
  {
    var e := levels[best][cur[best]];
    PickSits(levels, cur, bound, best);
    PickNewest(levels, cur, best);
    EmitAscends(levels, out, bound, e);
    forall k {:trigger Newest(levels, k)} | Leq(k, e.key) && Survives(levels, k)
      ensures Entry(k, Newest(levels, k).value) in Emit(out, e)
    {
      if k != e.key && !Done(k, bound) { PickSkipsNothing(levels, cur, bound, e.key, k); }
    }
  }

  lemma EmitAscends(levels: Levels, out: seq<Entry>, bound: Bound, e: Entry)
    requires Emitted(levels, out, bound) && !Done(e.key, bound) && Newest(levels, e.key) == Some(e.value)
    ensures Ascending(Emit(out, e))
    ensures forall j :: 0 <= j < |Emit(out, e)| ==>
              Done(Emit(out, e)[j].key, UpTo(e.key)) && LivePair(levels, Emit(out, e)[j])
  {
    forall j | 0 <= j < |out| ensures Less(out[j].key, e.key) {
      assert Done(out[j].key, bound);
      LeqNotLess(e.key, out[j].key);
      if bound.UpTo? && Leq(e.key, out[j].key) { LeqTransitive(e.key, out[j].key, bound.key); }
    }
    if out != [] { AscendingSnoc(out, e); }
  }

  /** When no head is left, every key has been dealt with. */
  lemma NoneLeft(levels: Levels, cur: seq<nat>, bound: Bound, out: seq<Entry>)
    requires AllAscending(levels) && HeadsIn(levels, cur) && Past(levels, cur, bound) && Emitted(levels, out, bound)
    requires forall i :: 0 <= i < |levels| ==> cur[i] == |levels[i]|
    ensures Emitted(levels, out, End)
  {
    forall k {:trigger Newest(levels, k)} | Survives(levels, k) ensures Entry(k, Newest(levels, k).value) in out {
      if !Done(k, bound) {
        forall i | 0 <= i < |levels| ensures Lookup(levels[i], k) == None {
          assert HeadPast(levels[i], cur[i], bound);
          LookupAbsent(levels[i], k);
        }
        NewestNone(levels, k);
      }
    }
  }
}
