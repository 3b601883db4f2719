/** latest/view.go, the overlay: one byte slab of entries behind a pointer-free
    index. A Put rewrites a value in place when it fits the slot, else it appends
    a new slot and leaves the old one dead. */
module LatestOverlay {
  import opened Bytes
  import opened LatestRun
  import opened LatestIter
  import opened Slab

  /** The index key width: shorter keys are inlined, the others go to long. */
  const FixedKey: nat := 72

  function Fixed(key: bytes): (k: bytes)
    requires |key| < FixedKey
    ensures |k| == FixedKey
  {
    [|key| as byte] + key + Zeros(FixedKey - 1 - |key|)
  }

  /** The key an inlined index key stands for: k[1 : 1+k[0]]. */
  function Unfixed(k: bytes): bytes
    requires |k| == FixedKey
  {
    if 1 + k[0] as int <= FixedKey then k[1..1 + k[0] as int] else []
  }

  lemma UnfixedFixed(key: bytes)
    requires |key| < FixedKey
    ensures Unfixed(Fixed(key)) == key
  {
  }

  // ------------------------------------------------------------------- slots

  /** A slab entry is [klen][vlen][vcap][key][value, padded to vcap]. */
  predicate SlotFits(slab: bytes, off: nat) {
    off + 3 <= |slab| && off + 3 + slab[off] as int + slab[off + 2] as int <= |slab| && slab[off + 1] <= slab[off + 2]
  }

  function SlotEnd(slab: bytes, off: nat): nat
    requires SlotFits(slab, off)
  {
    off + 3 + slab[off] as int + slab[off + 2] as int
  }

  function KeyAt(slab: bytes, off: nat): bytes
    requires SlotFits(slab, off)
  {
    slab[off + 3..off + 3 + slab[off] as int]
  }

  function ValueAt(slab: bytes, off: nat): bytes
    requires SlotFits(slab, off)
  {
    var k := off + 3 + slab[off] as int;
    slab[k..k + slab[off + 1] as int]
  }

  ghost predicate SlotIs(slab: bytes, off: nat, key: bytes, value: bytes) {
    SlotFits(slab, off) && KeyAt(slab, off) == key && ValueAt(slab, off) == value
  }

  /** The slot at p holds the pair k, v. */
  ghost predicate Holds(slab: bytes, p: Span, k: bytes, v: bytes) {
    ValidEntry(Entry(k, v)) && SlotIs(slab, p.off, k, v) && SlotEnd(slab, p.off) == p.end
  }

  lemma HoldsKept(slab: bytes, slab': bytes, p: Span, k: bytes, v: bytes)
    requires Holds(slab, p, k, v) && Same(slab, slab', p.off, p.end)
    ensures Holds(slab', p, k, v)
  {
  }

  /** What an in-place Put leaves in the slab. */
  function Rewrite(slab: bytes, off: nat, value: bytes): (s: bytes)
    requires SlotFits(slab, off) && |value| <= slab[off + 2] as int
    ensures |s| == |slab|
  {
    var k := off + 3 + slab[off] as int;
    slab[..off + 1] + [|value| as byte] + slab[off + 2..k] + value + slab[k + |value|..]
  }

  lemma RewriteSlot(slab: bytes, off: nat, value: bytes)
    requires SlotFits(slab, off) && |value| <= slab[off + 2] as int
    ensures var s := Rewrite(slab, off, value);
            && SlotIs(s, off, KeyAt(slab, off), value) && SlotEnd(s, off) == SlotEnd(slab, off)
            && Same(slab, s, 0, off) && Same(slab, s, SlotEnd(slab, off), |slab|)
  {
    var k := off + 3 + slab[off] as int;
    var a, b, c, d := slab[..off + 1] + [|value| as byte], slab[off + 2..k], value, slab[k + |value|..];
    Cut(a, b, c, d);
    var s := Rewrite(slab, off, value);
    assert s[..off + 2] == a && s[off + 2..k] == b && s[k..k + |value|] == value && s[k + |value|..] == d;
    assert s[off] == a[off] && s[off + 1] == a[off + 1] && s[off + 2] == b[0];
    assert KeyAt(s, off) == b[1..] && KeyAt(slab, off) == b[1..];
    forall i | 0 <= i < off ensures slab[i] == s[i] { assert s[i] == a[i]; }
    forall i | SlotEnd(slab, off) <= i < |slab| ensures slab[i] == s[i] { assert s[i] == d[i - k - |value|]; }
  }

  method Overwrite(slab: bytes, off: nat, value: bytes) returns (s: bytes)
    requires SlotFits(slab, off) && |value| <= slab[off + 2] as int
    ensures SlotIs(s, off, KeyAt(slab, off), value) && SlotEnd(s, off) == SlotEnd(slab, off)
    ensures Same(slab, s, 0, off) && Same(slab, s, SlotEnd(slab, off), |slab|)
  {
    RewriteSlot(slab, off, value);
    s := Rewrite(slab, off, value);
  }

  /** The slot an appending Put adds: its value capacity is rounded up to 16. */
  method Extend(slab: bytes, key: bytes, value: bytes) returns (s: bytes)
    requires ValidEntry(Entry(key, value))
    ensures SlotIs(s, |slab|, key, value) && Same(slab, s, 0, |slab|)
  {
    var rounded := (|value| + 15) / 16 * 16;
    var vcap := if rounded < MaxValue then rounded else MaxValue;
    var head := slab + [|key| as byte, |value| as byte, vcap as byte];
    Cut(head, key, value, Zeros(vcap - |value|));
    s := head + key + value + Zeros(vcap - |value|);
    ghost var n := |slab|;
    assert s[n] == head[n] && s[n + 1] == head[n + 1] && s[n + 2] == head[n + 2];
  }

  // ---------------------------------------------------------- the abstraction

  /** Where each live key sits: every live slot reads back its key and value, and
      live slots never overlap. */
  ghost predicate SlabInv(slab: bytes, spans: map<bytes, Span>, contents: map<bytes, bytes>) {
    && spans.Keys == contents.Keys
    && (forall k :: k in spans ==> Holds(slab, spans[k], k, contents[k]))
    && AllApart(spans)
  }

  ghost predicate AllApart(spans: map<bytes, Span>) {
    forall k, l {:trigger Apart(spans[k], spans[l])} :: k in spans && l in spans && k != l ==> Apart(spans[k], spans[l])
  }

  /** An in-place rewrite touches one slot and nothing else. */
  lemma RewriteKeeps(slab: bytes, s: bytes, spans: map<bytes, Span>, contents: map<bytes, bytes>, key: bytes,
                     value: bytes)
    requires SlabInv(slab, spans, contents) && key in spans && Holds(s, spans[key], key, value)
    requires Same(slab, s, 0, spans[key].off) && Same(slab, s, spans[key].end, |slab|)
    ensures SlabInv(s, spans, contents[key := value])
  {
    var contents' := contents[key := value];
    forall k | k in spans ensures Holds(s, spans[k], k, contents'[k]) {
      if k != key {
        assert Apart(spans[k], spans[key]) && Holds(slab, spans[k], k, contents[k]);
        HoldsApart(slab, s, spans[key], spans[k], k, contents[k]);
      }
    }
  }

  lemma HoldsApart(slab: bytes, s: bytes, changed: Span, a: Span, k: bytes, v: bytes)
    requires Holds(slab, a, k, v) && Apart(a, changed)
    requires Same(slab, s, 0, changed.off) && Same(slab, s, changed.end, |slab|)
    ensures Holds(s, a, k, v)
  {
    HoldsKept(slab, s, a, k, v);
  }

  /** Appending a slot moves none of the others. */
  lemma AppendKeeps(slab: bytes, s: bytes, spans: map<bytes, Span>, contents: map<bytes, bytes>, key: bytes,
                    value: bytes, end: nat)
    requires SlabInv(slab, spans, contents) && Holds(s, Span(|slab|, end), key, value) && Same(slab, s, 0, |slab|)
    ensures SlabInv(s, spans[key := Span(|slab|, end)], contents[key := value])
  {
    var spans', contents' := spans[key := Span(|slab|, end)], contents[key := value];
    forall k | k in spans' ensures Holds(s, spans'[k], k, contents'[k]) {
      if k != key {
        assert Holds(slab, spans[k], k, contents[k]);
        HoldsKept(slab, s, spans[k], k, contents[k]);
      }
    }
    assert forall k :: k in spans ==> spans[k].end <= |slab| by {
      forall k | k in spans ensures spans[k].end <= |slab| { assert Holds(slab, spans[k], k, contents[k]); }
    }
    AppendApart(spans, key, Span(|slab|, end));
  }

  lemma AppendApart(spans: map<bytes, Span>, key: bytes, p: Span)
    requires AllApart(spans) && forall k :: k in spans ==> spans[k].end <= p.off
    ensures AllApart(spans[key := p])
  {
    var spans' := spans[key := p];
    forall k, l {:trigger Apart(spans'[k], spans'[l])} | k in spans' && l in spans' && k != l
      ensures Apart(spans'[k], spans'[l])
    {
      if k != key && l != key { assert Apart(spans[k], spans[l]); }
    }
  }

  /** The two index maps: short keys inlined and padded, long keys as they are. */
  datatype Index = Index(idx: map<bytes, nat>, long: map<bytes, nat>) {
    function Find(key: bytes): Option<nat> {
      if |key| < FixedKey then (if Fixed(key) in idx then Some(idx[Fixed(key)]) else None)
      else if key in long then Some(long[key]) else None
    }

    function Set(key: bytes, off: nat): Index {
      if |key| < FixedKey then Index(idx[Fixed(key) := off], long) else Index(idx, long[key := off])
    }

    ghost predicate WellFormed() {
      && (forall x {:trigger x in idx} :: x in idx ==>
            |x| == FixedKey && |Unfixed(x)| < FixedKey && x == Fixed(Unfixed(x)))
      && (forall x {:trigger x in long} :: x in long ==> |x| >= FixedKey)
    }
  }

  /** Padding merges no two keys, so the index is a map keyed by whole keys. */
  lemma SetFind(i: Index, key: bytes, off: nat, k: bytes)
    ensures i.Set(key, off).Find(k) == if k == key then Some(off) else i.Find(k)
  {
    if |key| < FixedKey && |k| < FixedKey && Fixed(k) == Fixed(key) { FixedInjective(k, key); }
  }

  lemma SetWellFormed(i: Index, key: bytes, off: nat)
    requires i.WellFormed()
    ensures i.Set(key, off).WellFormed()
  {
    if |key| < FixedKey { UnfixedFixed(key); }
  }

  ghost predicate IndexInv(i: Index, spans: map<bytes, Span>) {
    && i.WellFormed()
    && (forall k {:trigger i.Find(k)} :: i.Find(k) == if k in spans then Some(spans[k].off) else None)
  }

  lemma SetKeeps(i: Index, spans: map<bytes, Span>, key: bytes, p: Span)
    requires IndexInv(i, spans)
    ensures IndexInv(i.Set(key, p.off), spans[key := p])
  {
    SetWellFormed(i, key, p.off);
    var i', spans' := i.Set(key, p.off), spans[key := p];
    forall k {:trigger i'.Find(k)} ensures i'.Find(k) == if k in spans' then Some(spans'[k].off) else None {
      SetFind(i, key, p.off, k);
    }
  }

  /** An overlay's memory with the map it stands for; [] is a tombstone. */
  datatype Memory = Memory(index: Index, slab: bytes, spans: map<bytes, Span>, contents: map<bytes, bytes>)

  type Sound = m: Memory | SlabInv(m.slab, m.spans, m.contents) && IndexInv(m.index, m.spans)
    witness Memory(Index(map[], map[]), [], map[], map[])

  /** The memory after a slot for key was appended to the slab. */
  lemma AppendSound(m: Sound, s: bytes, key: bytes, value: bytes) returns (m': Sound)
    requires ValidEntry(Entry(key, value)) && SlotIs(s, |m.slab|, key, value) && Same(m.slab, s, 0, |m.slab|)
    ensures m'.index == m.index.Set(key, |m.slab|) && m'.slab == s && m'.contents == m.contents[key := value]
  {
    var p := Span(|m.slab|, SlotEnd(s, |m.slab|));
    AppendKeeps(m.slab, s, m.spans, m.contents, key, value, p.end);
    SetKeeps(m.index, m.spans, key, p);
    m' := Memory(m.index.Set(key, |m.slab|), s, m.spans[key := p], m.contents[key := value]);
  }

  /** The memory after the value of key was rewritten in its slot. */
  lemma RewriteSound(m: Sound, s: bytes, key: bytes, value: bytes) returns (m': Sound)
    requires key in m.spans && Holds(s, m.spans[key], key, value)
    requires Same(m.slab, s, 0, m.spans[key].off) && Same(m.slab, s, m.spans[key].end, |m.slab|)
    ensures m'.index == m.index && m'.slab == s && m'.contents == m.contents[key := value]
  {
    RewriteKeeps(m.slab, s, m.spans, m.contents, key, value);
    m' := Memory(m.index, s, m.spans, m.contents[key := value]);
  }

  /** Find gives exactly the offset of the key's slot. */
  lemma FoundLive(m: Sound, key: bytes)
    ensures m.index.Find(key).Some? <==> key in m.contents
    ensures key in m.contents ==>
              && key in m.spans && m.index.Find(key).value == m.spans[key].off
              && Holds(m.slab, m.spans[key], key, m.contents[key])
  {
  }

  /** Whether the key has a slot the value fits, and where. */
  method SlotFor(slab: bytes, index: Index, key: bytes, value: bytes, ghost m: Sound) returns (fits: bool, off: nat)
    requires m.slab == slab && m.index == index
    ensures fits ==> index.Find(key) == Some(off) && SlotFits(slab, off) && |value| <= slab[off + 2] as int
  {
    FoundLive(m, key);
    var found := index.Find(key);
    off := if found.Some? then found.value else 0;
    fits := found.Some? && |value| <= slab[off + 2] as int;
  }

  method OverwriteSlot(slab: bytes, off: nat, key: bytes, value: bytes, ghost m: Sound)
    returns (s: bytes, ghost m': Sound)
    requires m.slab == slab && m.index.Find(key) == Some(off) && ValidEntry(Entry(key, value))
    requires SlotFits(slab, off) && |value| <= slab[off + 2] as int
    ensures m'.index == m.index && m'.slab == s && m'.contents == m.contents[key := value]
  {
    FoundLive(m, key);
    s := Overwrite(slab, off, value);
    m' := RewriteSound(m, s, key, value);
  }

  class Overlay {
    var index: Index
    var slab: bytes
    ghost var mem: Sound

    ghost predicate Valid()
      reads this
    {
      mem.index == index && mem.slab == slab
    }

    /** What Get answers; an empty value is a tombstone. */
    ghost function Contents(): map<bytes, bytes>
      reads this
    {
      mem.contents
    }

    constructor ()
      ensures Valid() && Contents() == map[]
    {
      index, slab, mem := Index(map[], map[]), [], Memory(Index(map[], map[]), [], map[], map[]);
    }

    /** Put behaves as a map update, in place or relocating. The source panics on
        a key or value outside the limits. */
    method Put(key: bytes, value: bytes)
      requires Valid() && ValidEntry(Entry(key, value))
      modifies this
      ensures Valid() && Contents() == old(Contents())[key := value]
    {
      var fits, off := SlotFor(slab, index, key, value, mem);
      if fits {
        PutInPlace(key, value, off);
      } else {
        PutNew(key, value);
      }
    }

    method PutInPlace(key: bytes, value: bytes, off: nat)
      requires Valid() && ValidEntry(Entry(key, value)) && index.Find(key) == Some(off)
      requires SlotFits(slab, off) && |value| <= slab[off + 2] as int
      modifies this`slab, this`mem
      ensures Valid() && Contents() == old(Contents())[key := value]
    {
      slab, mem := OverwriteSlot(slab, off, key, value, mem);
    }

    method PutNew(key: bytes, value: bytes)
      requires Valid() && ValidEntry(Entry(key, value))
      modifies this
      ensures Valid() && Contents() == old(Contents())[key := value]
    {
      var off := |slab|;
      slab := Extend(slab, key, value);
      mem := AppendSound(mem, slab, key, value);
      index := index.Set(key, off);
    }

    /** Iter: a sorted snapshot of the keys in [lo, hi), tombstones included. */
    method Iter(lo: Option<bytes>, hi: Option<bytes>) returns (it: SlabIter)
      requires Valid()
      ensures fresh(it) && it.Fixed() && it.i == -1 && Lists(it.items, Contents(), lo, hi)
    {
      var offs;
      ghost var g: Gathered;
      offs, g := CollectShort(slab, index, lo, hi, mem);
      offs, g := CollectLong(slab, index, offs, lo, hi, g);
      it := new SlabIter(slab, offs, g.items);
    }

    /** Get: the stored value; an empty one is a deletion. */
    method Get(key: bytes) returns (val: Option<bytes>)
      requires Valid()
      ensures val == if key in Contents() then Some(Contents()[key]) else None
    {
      var off := index.Find(key);
      FoundLive(mem, key);
      if off.None? { return None; }
      return Some(ValueAt(slab, off.value));
    }
  }

  lemma FixedInjective(k: bytes, l: bytes)
    requires |k| < FixedKey && |l| < FixedKey && Fixed(k) == Fixed(l)
    ensures k == l
  {
    UnfixedFixed(k);
    UnfixedFixed(l);
  }

  lemma IndexedShort(m: Sound, x: bytes)
    requires x in m.index.idx
    ensures |x| == FixedKey && |Unfixed(x)| < FixedKey && Unfixed(x) in m.contents && Fixed(Unfixed(x)) == x
  {
    FoundLive(m, Unfixed(x));
  }

  lemma IndexedLong(m: Sound, k: bytes)
    requires k in m.index.long
    ensures k in m.contents && |k| >= FixedKey
  {
    FoundLive(m, k);
  }

  /** A collection in progress: the slots of the seen keys that are in range. */
  datatype Gather = Gather(m: Sound, offs: seq<nat>, items: seq<Entry>, seen: map<bytes, bytes>, lo: Option<bytes>,
                           hi: Option<bytes>)

  ghost predicate PartOf(seen: map<bytes, bytes>, contents: map<bytes, bytes>) {
    forall k {:trigger k in seen} :: k in seen ==> k in contents && contents[k] == seen[k]
  }

  type Gathered = g: Gather |
    PartOf(g.seen, g.m.contents) && SlotsOf(g.m.slab, g.offs, g.items) && Lists(g.items, g.seen, g.lo, g.hi)
    witness Gather(Memory(Index(map[], map[]), [], map[], map[]), [], [], map[], None, None)

  /** Where a key goes in the sorted list of slots. */
  method Position(slab: bytes, offs: seq<nat>, k: bytes, ghost items: seq<Entry>) returns (p: nat)
    requires SlotsOf(slab, offs, items)
    ensures p <= |offs| && (p < |offs| ==> !Less(items[p].key, k))
    ensures forall j {:trigger Less(items[j].key, k)} :: 0 <= j < p ==> Less(items[j].key, k)
  {
    p := 0;
    while p < |offs|
      invariant p <= |offs|
      invariant forall j {:trigger Less(items[j].key, k)} :: 0 <= j < p ==> Less(items[j].key, k)
    {
      assert SlotIs(slab, offs[p], items[p].key, items[p].value);
      if !Less(KeyAt(slab, offs[p]), k) { return; }
      p := p + 1;
    }
  }

  lemma SlotsInsert(slab: bytes, offs: seq<nat>, items: seq<Entry>, off: nat, e: Entry, p: nat)
    requires SlotsOf(slab, offs, items) && SlotIs(slab, off, e.key, e.value) && p <= |offs|
    ensures SlotsOf(slab, offs[..p] + [off] + offs[p..], items[..p] + [e] + items[p..])
  {
    var offs', items' := offs[..p] + [off] + offs[p..], items[..p] + [e] + items[p..];
    forall j | 0 <= j < |offs'| ensures SlotIs(slab, offs'[j], items'[j].key, items'[j].value) {
      var i := if j < p then j else j - 1;
      if j != p { assert offs'[j] == offs[i] && items'[j] == items[i]; }
    }
  }

  lemma Insert(g: Gathered, k: bytes, p: nat) returns (g': Gathered)
    requires k in g.m.contents && k !in g.seen && InRange(k, g.lo, g.hi) && p <= |g.offs|
    requires p < |g.items| ==> !Less(g.items[p].key, k)
    requires forall j {:trigger Less(g.items[j].key, k)} :: 0 <= j < p ==> Less(g.items[j].key, k)
    ensures k in g.m.spans && g'.offs == g.offs[..p] + [g.m.spans[k].off] + g.offs[p..]
    ensures (g'.m, g'.lo, g'.hi, g'.seen) == (g.m, g.lo, g.hi, g.seen[k := g.m.contents[k]])
  {
    var e, off := Entry(k, g.m.contents[k]), g.m.spans[k].off;
    var seen, items, offs := g.seen[k := e.value], g.items[..p] + [e] + g.items[p..], g.offs[..p] + [off] + g.offs[p..];
    assert SlotIs(g.m.slab, off, k, e.value) by { FoundLive(g.m, k); }
    InsertOne(g.m.slab, g.m.contents, g.offs, g.items, g.seen, g.lo, g.hi, e, off, p);
    g' := Gather(g.m, offs, items, seen, g.lo, g.hi);
  }

  lemma InsertOne(slab: bytes, contents: map<bytes, bytes>, offs: seq<nat>, items: seq<Entry>, seen: map<bytes, bytes>,
                  lo: Option<bytes>, hi: Option<bytes>, e: Entry, off: nat, p: nat)
    requires PartOf(seen, contents) && SlotsOf(slab, offs, items) && Lists(items, seen, lo, hi) && InLevel(e, contents)
    requires SlotIs(slab, off, e.key, e.value) && e.key !in seen && InRange(e.key, lo, hi) && p <= |offs|
    requires p < |items| ==> !Less(items[p].key, e.key)
    requires forall j {:trigger Less(items[j].key, e.key)} :: 0 <= j < p ==> Less(items[j].key, e.key)
    ensures PartOf(seen[e.key := e.value], contents)
    ensures SlotsOf(slab, offs[..p] + [off] + offs[p..], items[..p] + [e] + items[p..])
    ensures Lists(items[..p] + [e] + items[p..], seen[e.key := e.value], lo, hi)
  {
    PartMore(seen, contents, e);
    ListsInsert(items, seen, e, p, lo, hi);
    SlotsInsert(slab, offs, items, off, e, p);
  }

  lemma PassBy(g: Gathered, k: bytes) returns (g': Gathered)
    requires k in g.m.contents && k !in g.seen && !InRange(k, g.lo, g.hi)
    ensures g' == g.(seen := g.seen[k := g.m.contents[k]])
  {
    var e := Entry(k, g.m.contents[k]);
    ListsOther(g.items, g.seen, e, g.lo, g.hi);
    PartMore(g.seen, g.m.contents, e);
    g' := g.(seen := g.seen[k := e.value]);
  }

  lemma PartMore(seen: map<bytes, bytes>, contents: map<bytes, bytes>, e: Entry)
    requires PartOf(seen, contents) && InLevel(e, contents)
    ensures PartOf(seen[e.key := e.value], contents)
  {
  }

  /** One step of the collection, kept sorted by key. */
  method Collect(slab: bytes, index: Index, offs: seq<nat>, k: bytes, lo: Option<bytes>, hi: Option<bytes>,
                 ghost g: Gathered)
    returns (offs': seq<nat>, ghost g': Gathered)
    requires g.m.slab == slab && g.m.index == index && g.offs == offs && g.lo == lo && g.hi == hi
    requires k in g.m.contents && k !in g.seen
    ensures (g'.m, g'.lo, g'.hi, g'.seen) == (g.m, g.lo, g.hi, g.seen[k := g.m.contents[k]]) && g'.offs == offs'
  {
    FoundLive(g.m, k);
    if !InRange(k, lo, hi) {
      offs' := offs;
      g' := PassBy(g, k);
      return;
    }
    var p := Position(slab, offs, k, g.items);
    g' := Insert(g, k, p);
    offs' := offs[..p] + [index.Find(k).value] + offs[p..];
  }

  /** The loop over the inlined keys. */
  method CollectShort(slab: bytes, index: Index, lo: Option<bytes>, hi: Option<bytes>, ghost m: Sound)
    returns (offs: seq<nat>, ghost g: Gathered)
    requires m.slab == slab && m.index == index
    ensures g.m == m && g.lo == lo && g.hi == hi && g.offs == offs
    ensures forall k {:trigger k in g.seen} :: k in m.contents ==> (k in g.seen <==> |k| < FixedKey)
  {
    offs, g := [], Gather(m, [], [], map[], lo, hi);
    var todo := index.idx.Keys;
    LeftShortStart(m);
    while todo != {}
      invariant g.m == m && g.lo == lo && g.hi == hi && g.offs == offs && todo <= index.idx.Keys
      invariant LeftShort(m, todo, g.seen)
      decreases |todo|
    {
      var x :| x in todo;
      IndexedShort(m, x);
      LeftShortStep(m, todo, g.seen, x);
      offs, g := Collect(slab, index, offs, Unfixed(x), lo, hi, g);
      todo := todo - {x};
    }
  }

  /** Exactly the short keys not seen yet are still to do. */
  ghost predicate LeftShort(m: Sound, todo: set<bytes>, seen: map<bytes, bytes>) {
    forall k {:trigger k in seen} :: k in m.contents ==> (k in seen <==> |k| < FixedKey && Fixed(k) !in todo)
  }

  lemma LeftShortStart(m: Sound)
    ensures LeftShort(m, m.index.idx.Keys, map[])
  {
    var none: map<bytes, bytes> := map[];
    forall k {:trigger k in none} | k in m.contents ensures !(|k| < FixedKey && Fixed(k) !in m.index.idx.Keys) {
      FoundLive(m, k);
    }
  }

  lemma LeftShortStep(m: Sound, todo: set<bytes>, seen: map<bytes, bytes>, x: bytes)
    requires LeftShort(m, todo, seen) && x in todo && todo <= m.index.idx.Keys
    requires |x| == FixedKey && |Unfixed(x)| < FixedKey && Unfixed(x) in m.contents && Fixed(Unfixed(x)) == x
    ensures Unfixed(x) !in seen
    ensures LeftShort(m, todo - {x}, seen[Unfixed(x) := m.contents[Unfixed(x)]])
  {
    var seen' := seen[Unfixed(x) := m.contents[Unfixed(x)]];
    forall k {:trigger k in seen'} | k in m.contents ensures k in seen' <==> |k| < FixedKey && Fixed(k) !in todo - {x} {
      assert k in seen <==> |k| < FixedKey && Fixed(k) !in todo;
      if |k| < FixedKey && Fixed(k) == x { FixedInjective(k, Unfixed(x)); }
    }
  }

  /** The loop over the long keys. */
  method CollectLong(slab: bytes, index: Index, offs0: seq<nat>, lo: Option<bytes>, hi: Option<bytes>,
                     ghost g0: Gathered)
    returns (offs: seq<nat>, ghost g: Gathered)
    requires g0.m.slab == slab && g0.m.index == index && g0.lo == lo && g0.hi == hi && g0.offs == offs0
    requires forall k {:trigger k in g0.seen} :: k in g0.m.contents ==> (k in g0.seen <==> |k| < FixedKey)
    ensures g.m == g0.m && g.lo == lo && g.hi == hi && g.offs == offs && g.seen == g.m.contents
  {
    offs, g := offs0, g0;
    var todo := index.long.Keys;
    while todo != {}
      invariant g.m == g0.m && g.lo == lo && g.hi == hi && g.offs == offs && todo <= index.long.Keys
      invariant forall k {:trigger k in g.seen} :: k in g.m.contents && |k| < FixedKey ==> k in g.seen
      invariant forall k {:trigger k in todo} :: k in index.long ==> (k in todo <==> k !in g.seen)
      decreases |todo|
    {
      var k :| k in todo;
      IndexedLong(g.m, k);
      offs, g := Collect(slab, index, offs, k, lo, hi, g);
      todo := todo - {k};
    }
    forall k | k in g.m.contents ensures k in g.seen {
      FoundLive(g.m, k);
      if |k| >= FixedKey { assert k !in todo; }
    }
  }

  lemma ListsOther(items: seq<Entry>, seen: map<bytes, bytes>, e: Entry, lo: Option<bytes>, hi: Option<bytes>)
    requires Lists(items, seen, lo, hi) && e.key !in seen && !InRange(e.key, lo, hi)
    ensures Lists(items, seen[e.key := e.value], lo, hi)
  {
    forall j | 0 <= j < |items| ensures InLevel(items[j], seen[e.key := e.value]) { assert InLevel(items[j], seen); }
  }

  lemma ListsInsert(items: seq<Entry>, seen: map<bytes, bytes>, e: Entry, p: nat, lo: Option<bytes>, hi: Option<bytes>)
    requires Lists(items, seen, lo, hi) && e.key !in seen && InRange(e.key, lo, hi) && p <= |items|
    requires forall j {:trigger Less(items[j].key, e.key)} :: 0 <= j < p ==> Less(items[j].key, e.key)
    requires p < |items| ==> !Less(items[p].key, e.key)
    ensures Lists(items[..p] + [e] + items[p..], seen[e.key := e.value], lo, hi)
  {
    assert forall j :: 0 <= j < |items| ==> items[j].key != e.key by {
      forall j | 0 <= j < |items| ensures items[j].key != e.key { assert InLevel(items[j], seen); }
    }
    AscendingInsert(items, e, p);
    LevelInsert(items, seen, e, p, lo, hi);
    KeysInsert(items, seen, e, p, lo, hi);
  }

  lemma LevelInsert(items: seq<Entry>, seen: map<bytes, bytes>, e: Entry, p: nat, lo: Option<bytes>, hi: Option<bytes>)
    requires forall j :: 0 <= j < |items| ==> InLevel(items[j], seen) && InRange(items[j].key, lo, hi)
    requires e.key !in seen && InRange(e.key, lo, hi) && p <= |items|
    ensures var out := items[..p] + [e] + items[p..];
            forall j :: 0 <= j < |out| ==> InLevel(out[j], seen[e.key := e.value]) && InRange(out[j].key, lo, hi)
  {
    var out, seen' := items[..p] + [e] + items[p..], seen[e.key := e.value];
    forall j | 0 <= j < |out| ensures InLevel(out[j], seen') && InRange(out[j].key, lo, hi) {
      var i := if j < p then j else j - 1;
      if j != p { assert out[j] == items[i] && InLevel(items[i], seen); }
    }
  }

  lemma KeysInsert(items: seq<Entry>, seen: map<bytes, bytes>, e: Entry, p: nat, lo: Option<bytes>, hi: Option<bytes>)
    requires p <= |items| && forall k {:trigger k in seen} :: k in seen && InRange(k, lo, hi) ==> HasKey(items, k)
    ensures var seen' := seen[e.key := e.value];
            forall k {:trigger k in seen'} :: k in seen' && InRange(k, lo, hi) ==>
              HasKey(items[..p] + [e] + items[p..], k)
  {
    var seen' := seen[e.key := e.value];
    forall k {:trigger k in seen'} | k in seen' && InRange(k, lo, hi) ensures HasKey(items[..p] + [e] + items[p..], k) {
      assert k == e.key || (k in seen && HasKey(items, k));
      HasKeyInsert(items, e, p, k);
    }
  }

  lemma HasKeyInsert(items: seq<Entry>, e: Entry, p: nat, k: bytes)
    requires p <= |items| && (k == e.key || HasKey(items, k))
    ensures HasKey(items[..p] + [e] + items[p..], k)
  {
    var out := items[..p] + [e] + items[p..];
    if k == e.key {
      assert out[p].key == k;
    } else {
      var i :| 0 <= i < |items| && items[i].key == k;
      assert out[if i < p then i else i + 1].key == k;
    }
  }

  lemma AscendingInsert(items: seq<Entry>, e: Entry, p: nat)
    requires Ascending(items) && p <= |items| && (forall j :: 0 <= j < |items| ==> items[j].key != e.key)
    requires forall j {:trigger Less(items[j].key, e.key)} :: 0 <= j < p ==> Less(items[j].key, e.key)
    requires p < |items| ==> !Less(items[p].key, e.key)
    ensures Ascending(items[..p] + [e] + items[p..])
  {
    var out := items[..p] + [e] + items[p..];
    forall j | p <= j < |items| ensures Less(e.key, items[j].key) {
      LessTotal(items[p].key, e.key);
      if p < j { LessTransitive(e.key, items[p].key, items[j].key); }
    }
    forall i, j {:trigger Less(out[i].key, out[j].key)} | 0 <= i < j < |out| ensures Less(out[i].key, out[j].key) {
      var a, b := if i < p then i else i - 1, if j < p then j else j - 1;
      if i != p && j != p { assert Less(items[a].key, items[b].key); }
    }
  }

  ghost predicate SlotsOf(slab: bytes, offs: seq<nat>, items: seq<Entry>) {
    |offs| == |items| && forall j :: 0 <= j < |offs| ==> SlotIs(slab, offs[j], items[j].key, items[j].value)
  }

  class SlabIter {
    const slab: bytes
    const offs: seq<nat>
    var i: int
    ghost const items: seq<Entry>

    ghost predicate Fixed() { SlotsOf(slab, offs, items) }

    constructor (slab: bytes, offs: seq<nat>, ghost items: seq<Entry>)
      requires SlotsOf(slab, offs, items)
      ensures Fixed() && this.items == items && i == -1
    {
      this.slab, this.offs, this.items, i := slab, offs, items, -1;
    }

    method Next() returns (ok: bool)
      requires -1 <= i
      modifies this
      ensures i == old(i) + 1 && ok == (i < |offs|)
    {
      i := i + 1;
      ok := i < |offs|;
    }
  }
}
