/** fetch/window.go, Queue: the one contiguous, hash-linked run of containers held
    in memory between the fetcher and the executor. */
module FetchQueue {
  import opened Bytes

  type Hash = bytes

  /** A parsed container: its height, its hash, its parent's hash and its bytes. */
  datatype Item = Item(num: nat, hash: Hash, parent: Hash, raw: bytes)

  const KeepBehind: nat := 8192

  datatype Answer = Got(raw: bytes) | Released | Waits

  function Sizes(items: seq<Item>): nat {
    if items == [] then 0 else |items[0].raw| + Sizes(items[1..])
  }

  lemma {:induction false} SizesAppend(items: seq<Item>, x: Item)
    ensures Sizes(items + [x]) == Sizes(items) + |x.raw|
  {
    if items == [] {
      assert items + [x] == [x] && Sizes([x]) == |x.raw| + Sizes([]);
    } else {
      SizesAppend(items[1..], x);
      TailConcat(items, [x]);
    }
  }

  /** Consecutive heights from `from`, each linked to the one before by its hash. */
  ghost predicate Linked(items: seq<Item>, from: nat, anchor: Hash) {
    forall i {:trigger LinkAt(items, i, from, anchor)} :: 0 <= i < |items| ==> LinkAt(items, i, from, anchor)
  }

  ghost predicate LinkAt(items: seq<Item>, i: nat, from: nat, anchor: Hash)
    requires i < |items|
  {
    items[i].num == from + i && items[i].parent == if i == 0 then anchor else items[i - 1].hash
  }

  /** Exactly the heights [low..] of what was taken are held, with their bytes. */
  ghost predicate Held(blk: map<nat, bytes>, low: nat, from: nat, taken: seq<Item>) {
    && from <= low <= from + |taken|
    && (forall n {:trigger n in blk} ::
          if low <= n < from + |taken| then n in blk && blk[n] == taken[n - from].raw else n !in blk)
  }

  lemma LinkedAppend(items: seq<Item>, from: nat, anchor: Hash, x: Item)
    requires Linked(items, from, anchor) && x.num == from + |items|
    requires x.parent == if items == [] then anchor else items[|items| - 1].hash
    ensures Linked(items + [x], from, anchor)
  {
    var more := items + [x];
    forall i {:trigger LinkAt(more, i, from, anchor)} | 0 <= i < |more| ensures LinkAt(more, i, from, anchor) {
      if i < |items| { assert LinkAt(items, i, from, anchor); }
    }
  }

  lemma HeldAppend(blk: map<nat, bytes>, low: nat, from: nat, taken: seq<Item>, x: Item)
    requires Held(blk, low, from, taken) && x.num == from + |taken|
    ensures Held(blk[x.num := x.raw], low, from, taken + [x])
    ensures Sizes((taken + [x])[low - from..]) == Sizes(taken[low - from..]) + |x.raw|
  {
    var blk', taken' := blk[x.num := x.raw], taken + [x];
    forall n {:trigger n in blk'}
      ensures if low <= n < from + |taken'| then n in blk' && blk'[n] == taken'[n - from].raw else n !in blk'
    {
      assert n in blk || n !in blk;
    }
    SizesAppend(taken[low - from..], x);
    assert (taken + [x])[low - from..] == taken[low - from..] + [x];
  }

  lemma HeldDrop(blk: map<nat, bytes>, low: nat, from: nat, taken: seq<Item>)
    requires Held(blk, low, from, taken) && low < from + |taken|
    ensures low in blk && Held(blk - {low}, low + 1, from, taken)
    ensures Sizes(taken[low - from..]) == |blk[low]| + Sizes(taken[low + 1 - from..])
  {
    DropDrop(taken, low - from);
    var blk' := blk - {low};
    assert low in blk;
    forall n {:trigger n in blk'}
      ensures if low + 1 <= n < from + |taken| then n in blk' && blk'[n] == taken[n - from].raw else n !in blk'
    {
      assert n in blk || n !in blk;
    }
  }

  /** The containers held, and the whole run they are the tail of. */
  datatype Tail = Tail(blk: map<nat, bytes>, low: nat, size: nat, from: nat, anchor: Hash, taken: seq<Item>)
  {
    ghost function Head(): int { from + |taken| - 1 }

    ghost function HeadHash(): Hash { if taken == [] then anchor else taken[|taken| - 1].hash }
  }

  ghost predicate TailInv(t: Tail) {
    && Held(t.blk, t.low, t.from, t.taken) && t.size == Sizes(t.taken[t.low - t.from..])
    && Linked(t.taken, t.from, t.anchor)
  }

  type Sound = t: Tail | TailInv(t)
    ghost witness Tail(map[], 0, 0, 0, [], [])

  lemma Start(from: nat, anchor: Hash) returns (t: Sound)
    ensures t == Tail(map[], from, 0, from, anchor, [])
  {
    t := Tail(map[], from, 0, from, anchor, []);
    assert t.taken[0..] == [];
  }

  lemma Grow(t: Sound, x: Item) returns (t': Sound)
    requires x.num == t.Head() + 1 && x.parent == t.HeadHash()
    ensures t' == t.(blk := t.blk[x.num := x.raw], size := t.size + |x.raw|, taken := t.taken + [x])
  {
    HeldAppend(t.blk, t.low, t.from, t.taken, x);
    LinkedAppend(t.taken, t.from, t.anchor, x);
    t' := t.(blk := t.blk[x.num := x.raw], size := t.size + |x.raw|, taken := t.taken + [x]);
  }

  lemma Drop(t: Sound) returns (t': Sound)
    requires t.low <= t.Head()
    ensures t.low in t.blk && t.size >= |t.blk[t.low]|
    ensures t' == t.(blk := t.blk - {t.low}, low := t.low + 1, size := t.size - |t.blk[t.low]|)
  {
    HeldDrop(t.blk, t.low, t.from, t.taken);
    t' := t.(blk := t.blk - {t.low}, low := t.low + 1, size := t.size - |t.blk[t.low]|);
  }

  /** A height is in the map exactly when it is held. */
  lemma HeldAt(t: Tail, n: nat)
    requires TailInv(t)
    ensures n in t.blk <==> t.low <= n <= t.Head()
    ensures n in t.blk ==> t.blk[n] == t.taken[n - t.from].raw
  {
  }

  /** What a read of height n must answer. */
  ghost function Reading(taken: seq<Item>, from: nat, n: nat, consumed: int): Answer {
    if n >= from + |taken| then Waits
    else if n < from || n + KeepBehind <= consumed then Released
    else Got(taken[n - from].raw)
  }

  lemma ReadingIs(t: Tail, n: nat, consumed: int)
    requires TailInv(t) && t.from - 1 <= consumed <= t.Head() && t.low == Retained(t.from, consumed)
    ensures Reading(t.taken, t.from, n, consumed) ==
            if n in t.blk then Got(t.blk[n]) else if n < t.low then Released else Waits
    ensures n in t.blk ==> n <= t.Head()
  {
    HeldAt(t, n);
  }

  /** release on values: everything more than KeepBehind below the executor goes. */
  method Release(blk: map<nat, bytes>, low: nat, size: nat, upTo: nat, ghost t: Sound)
    returns (blk': map<nat, bytes>, low': nat, size': nat, ghost t': Sound)
    requires t.blk == blk && t.low == low && t.size == size && upTo <= t.Head()
    ensures t'.blk == blk' && t'.low == low' && t'.size == size'
    ensures t'.taken == t.taken && t'.from == t.from && t'.anchor == t.anchor && size' <= size
    ensures low' == if upTo >= low + KeepBehind then upTo - KeepBehind + 1 else low
  {
    blk', low', size', t' := blk, low, size, t;
    if upTo < KeepBehind { return; }
    while low' + KeepBehind <= upTo
      invariant t'.blk == blk' && t'.low == low' && t'.size == size'
      invariant t'.taken == t.taken && t'.from == t.from && t'.anchor == t.anchor && size' <= size
      invariant low' == low || (low < low' && low' + KeepBehind <= upTo + 1)
      decreases upTo - low'
    {
      ghost var d := Drop(t');
      blk', low', size' := blk' - {low'}, low' + 1, size' - |blk'[low']|;
      t' := d;
    }
  }

  class Queue {
    var blk: map<nat, bytes>
    var head: int
    var headHash: Hash
    var low: nat
    var consumed: int
    var size: nat
    var peak: nat
    ghost var tail: Sound

    ghost predicate Valid()
      reads this
    {
      && blk == tail.blk && low == tail.low && size == tail.size <= peak
      && head == tail.Head() && headHash == tail.HeadHash()
      && tail.from - 1 <= consumed <= head && low == Retained(tail.from, consumed)
    }

    constructor (from: nat, anchor: Hash)
      ensures Valid() && tail.taken == [] && tail.from == from && tail.anchor == anchor && head == from - 1
    {
      blk, head, headHash, low, consumed, size, peak := map[], from - 1, anchor, from, from - 1, 0, 0;
      ghost var t := Start(from, anchor);
      tail := t;
    }

    /** Append: the next height whose parent is the block at the head, or nothing. */
    method Append(x: Item) returns (ok: bool)
      requires Valid()
      modifies this
      ensures Valid() && consumed == old(consumed) && tail.from == old(tail.from)
      ensures ok <==> x.num == old(head) + 1 && x.parent == old(headHash)
      ensures tail.taken == if ok then old(tail.taken) + [x] else old(tail.taken)
      ensures (head, headHash) == if ok then (x.num, x.hash) else (old(head), old(headHash))
    {
      if x.num != head + 1 || x.parent != headHash { return false; }
      ghost var t := Grow(tail, x);
      blk, head, headHash, size := blk[x.num := x.raw], x.num, x.hash, size + |x.raw|;
      peak := if size > peak then size else peak;
      tail := t;
      return true;
    }

    /** GetByHeight: every appended height above consumed - KeepBehind is readable
        with the bytes appended; a lower one was released, a higher one is waited
        for. */
    method GetByHeight(n: nat) returns (a: Answer)
      requires Valid()
      modifies this
      ensures Valid() && head == old(head) && tail.taken == old(tail.taken) && tail.from == old(tail.from)
      ensures a == Reading(tail.taken, tail.from, n, old(consumed))
      ensures consumed == if a.Got? && n > old(consumed) then n else old(consumed)
    {
      ReadingIs(tail, n, consumed);
      if n in blk {
        a := Got(blk[n]);
        if n > consumed { Consume(n); }
        return;
      }
      return if n < low then Released else Waits;
    }

    method Consume(n: nat)
      requires Valid() && consumed < n <= head
      modifies this`blk, this`low, this`size, this`consumed, this`tail
      ensures Valid() && consumed == n && tail.taken == old(tail.taken) && tail.from == old(tail.from)
    {
      RetainedMore(tail.from, consumed, n);
      blk, low, size, tail := Release(blk, low, size, n, tail);
      consumed := n;
    }
  }

  /** The lowest height kept once the executor has taken up to consumed. */
  function Retained(from: nat, consumed: int): nat {
    if consumed >= from + KeepBehind then consumed - KeepBehind + 1 else from
  }

  lemma RetainedMore(from: nat, consumed: int, n: nat)
    requires from - 1 <= consumed < n
    ensures var low := Retained(from, consumed);
            Retained(from, n) == if n >= low + KeepBehind then n - KeepBehind + 1 else low
  {
  }
}
