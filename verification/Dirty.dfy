/** commit/dirty.go: the overlay of changed trie nodes, a byte slab behind a packed
    index, with in-place rewrites, relocation and compaction. */
module Dirty {
  import opened Bytes
  import opened Nibbles
  import opened Slab
  import opened Totals

  // --------------------------------------------------------------- packed keys

  function Pow16(n: nat): (p: nat)
    ensures p > 0
  {
    if n == 0 then 1 else 16 * Pow16(n - 1)
  }

  /** The path as a base-16 number, first nibble most significant. */
  function Number(p: bytes): nat {
    if p == [] then 0 else 16 * Number(p[..|p| - 1]) + p[|p| - 1] as nat
  }

  lemma {:induction false} NumberBelow(p: bytes)
    requires IsPath(p)
    ensures Number(p) < Pow16(|p|)
  {
    if p != [] { NumberBelow(p[..|p| - 1]); }
  }

  lemma {:induction false} NumberInjective(p: bytes, q: bytes)
    requires IsPath(p) && IsPath(q) && |p| == |q| && Number(p) == Number(q)
    ensures p == q
  {
    if p != [] {
      var n := |p| - 1;
      NumberInjective(p[..n], q[..n]);
      assert p == p[..n] + [p[n]] && q == q[..n] + [q[n]];
    }
  }

  /** len << (4 * len) | nibbles */
  function Packed(p: bytes): nat { |p| * Pow16(|p|) + Number(p) }

  lemma {:induction false} PowGrows(a: nat, b: nat)
    requires a <= b
    ensures Pow16(a) <= Pow16(b)
    decreases b
  {
    if a < b { PowGrows(a, b - 1); }
  }

  /** The ranges of different lengths are disjoint. */
  lemma ShorterIsLess(p: bytes, q: bytes)
    requires IsPath(p) && IsPath(q) && |p| < |q|
    ensures Packed(p) < Packed(q)
  {
    NumberBelow(p);
    PowGrows(|p|, |q|);
    Scale(|p| + 1, |q|, Pow16(|p|), Pow16(|q|));
  }

  lemma Scale(a: nat, b: nat, x: nat, y: nat)
    requires a <= b && x <= y
    ensures a * x <= b * y
  {
    assert a * x <= a * y;
    assert a * y <= b * y;
  }

  lemma PackedInjective(p: bytes, q: bytes)
    requires IsPath(p) && IsPath(q) && Packed(p) == Packed(q)
    ensures p == q
  {
    if |p| < |q| { ShorterIsLess(p, q); }
    if |q| < |p| { ShorterIsLess(q, p); }
    NumberInjective(p, q);
  }

  /** Fifteen nibbles and their count fit 64 bits. */
  lemma PackedFits(p: bytes)
    requires IsPath(p) && |p| <= 15
    ensures Packed(p) < 0x1_0000_0000_0000_0000
  {
    NumberBelow(p);
    PowGrows(|p|, 15);
    Scale(|p| + 1, 16, Pow16(|p|), Pow16(15));
    assert Pow16(5) == 0x10_0000;
    assert Pow16(10) == Pow16(5) * 0x10_0000;
    assert Pow16(15) == Pow16(10) * 0x10_0000;
  }

  /** k shifted left by a nibble for each of p's, or-ing it in. */
  function Horner(k: nat, p: bytes): nat {
    if p == [] then k else 16 * Horner(k, p[..|p| - 1]) + p[|p| - 1] as nat
  }

  lemma {:induction false} HornerIs(k: nat, p: bytes)
    ensures Horner(k, p) == k * Pow16(|p|) + Number(p)
  {
    if p != [] {
      HornerIs(k, p[..|p| - 1]);
      assert k * Pow16(|p|) == 16 * (k * Pow16(|p| - 1));
    }
  }

  /** packPath: None for a path too long or not of nibbles. */
  method PackPath(path: bytes) returns (k: Option<nat>)
    ensures k == if |path| <= 15 && IsPath(path) then Some(Packed(path)) else None
    ensures k.Some? ==> k.value < 0x1_0000_0000_0000_0000
  {
    if |path| > 15 { return None; }
    var n := |path|;
    for i := 0 to |path|
      invariant IsPath(path[..i]) && n == Horner(|path|, path[..i])
    {
      if path[i] > 15 { return None; }
      DropDrop(path, i);
      assert path[..i + 1][..i] == path[..i];
      n := 16 * n + path[i] as nat;
    }
    assert path[..|path|] == path;
    HornerIs(|path|, path);
    PackedFits(path);
    return Some(n);
  }

  /** The two index maps' keys: packed, or owner and path joined. */
  datatype Key = Short(owner: bytes, k: nat) | Long(s: bytes)

  function KeyOf(owner: bytes, path: bytes): Key {
    if |path| <= 15 && IsPath(path) then Short(owner, Packed(path)) else Long(owner + path)
  }

  /** No two nodes share an index key. */
  lemma KeyInjective(o: bytes, p: bytes, o': bytes, p': bytes)
    requires |o| == |o'| == 32 && KeyOf(o, p) == KeyOf(o', p')
    ensures o == o' && p == p'
  {
    if KeyOf(o, p).Short? {
      PackedInjective(p, p');
    } else {
      assert (o + p)[..32] == o && (o' + p')[..32] == o' && (o + p)[32..] == p && (o' + p')[32..] == p';
    }
  }

  // -------------------------------------------------------------------- slots

  /** Little-endian 16 bits at off. */
  function U16(slab: bytes, off: nat): nat
    requires off + 2 <= |slab|
  {
    slab[off] as nat + 256 * slab[off + 1] as nat
  }

  function Le16(n: nat): (b: bytes)
    requires n < 65536
    ensures |b| == 2 && b[0] as nat + 256 * b[1] as nat == n
  {
    [(n % 256) as byte, (n / 256) as byte]
  }

  /** The slot at s: capacity, length, blob, padding. */
  ghost predicate Holds(slab: bytes, s: Span, blob: bytes) {
    && s.off + 4 <= s.end <= |slab| && U16(slab, s.off) == s.end - s.off - 4
    && U16(slab, s.off + 2) == |blob| && s.off + 4 + |blob| <= s.end
    && slab[s.off + 4..s.off + 4 + |blob|] == blob
  }

  lemma HoldsMoved(slab: bytes, s: Span, blob: bytes, slab': bytes, at: nat)
    requires Holds(slab, s, blob) && at + (s.end - s.off) <= |slab'|
    requires slab'[at..at + (s.end - s.off)] == slab[s.off..s.end]
    ensures Holds(slab', Span(at, at + (s.end - s.off)), blob)
  {
    var x, y := slab[s.off..s.end], slab'[at..at + (s.end - s.off)];
    assert x[0] == slab[s.off] && x[1] == slab[s.off + 1] && x[2] == slab[s.off + 2] && x[3] == slab[s.off + 3];
    assert y[0] == slab'[at] && y[1] == slab'[at + 1] && y[2] == slab'[at + 2] && y[3] == slab'[at + 3];
    SliceSlice(slab, s.off, s.end, 4, 4 + |blob|);
    SliceSlice(slab', at, at + (s.end - s.off), 4, 4 + |blob|);
  }

  /** What an in-place put leaves. */
  method Overwrite(slab: bytes, off: nat, blob: bytes, ghost s: Span, ghost was: bytes) returns (slab': bytes)
    requires Holds(slab, s, was) && off == s.off && |blob| <= U16(slab, off)
    ensures |slab'| == |slab| && Holds(slab', s, blob) && Same(slab, slab', 0, s.off)
    ensures Same(slab, slab', s.end, |slab|)
  {
    var a, b, c := slab[..off + 2] + Le16(|blob|), blob, slab[off + 4 + |blob|..];
    Cut(a, b, c, []);
    slab' := a + b + c;
    assert slab' == a + b + c + [];
    assert slab'[off] == a[off] && slab'[off + 1] == a[off + 1] && slab'[off + 2] == a[off + 2];
    assert slab'[off + 3] == a[off + 3];
    assert slab'[..off] == slab[..off];
    assert slab'[s.end..] == c[s.end - off - 4 - |blob|..] == slab[s.end..];
  }

  /** A new slot at the end, its capacity the length rounded up to 64. Both go into 16
      bits: the slot is sound exactly when the capacity fits them, and a reader gets no
      more of the blob than its length in 16 bits says. */
  method Extend(slab: bytes, blob: bytes) returns (slab': bytes, ghost s: Span)
    ensures s == Span(|slab|, |slab| + 4 + Rounded(|blob|)) && s.end == |slab'|
    ensures Holds(slab', s, blob) <==> Rounded(|blob|) < 65536
    ensures Same(slab, slab', 0, |slab|)
    ensures Legible(slab', |slab|) && ReadAt(slab', |slab|) == blob[..|blob| % 65536]
  {
    var c, n := Rounded(|blob|), |slab|;
    var head := slab + Le16(c % 65536) + Le16(|blob| % 65536);
    Cut(head, blob, Zeros(c - |blob|), []);
    slab' := head + blob + Zeros(c - |blob|);
    assert slab' == head + blob + Zeros(c - |blob|) + [];
    s := Span(n, n + 4 + c);
    assert slab'[n] == head[n] && slab'[n + 1] == head[n + 1] && slab'[n + 2] == head[n + 2];
    assert slab'[n + 3] == head[n + 3];
    assert slab'[..n] == slab[..n];
    SlotSized(slab', n, blob);
  }

  /** A slot with its sizes in 16 bits. */
  lemma SlotSized(slab: bytes, off: nat, blob: bytes)
    requires |slab| == off + 4 + Rounded(|blob|) && slab[off + 4..off + 4 + |blob|] == blob
    requires U16(slab, off) == Rounded(|blob|) % 65536 && U16(slab, off + 2) == |blob| % 65536
    ensures Holds(slab, Span(off, |slab|), blob) <==> Rounded(|blob|) < 65536
    ensures Legible(slab, off) && ReadAt(slab, off) == blob[..|blob| % 65536]
  {
    assert slab[off + 4..off + 4 + |blob| % 65536] == slab[off + 4..off + 4 + |blob|][..|blob| % 65536];
  }

  predicate Legible(slab: bytes, off: nat) { off + 4 <= |slab| && off + 4 + U16(slab, off + 2) <= |slab| }

  /** What lookup reads at a slot. */
  function ReadAt(slab: bytes, off: nat): bytes
    requires Legible(slab, off)
  {
    slab[off + 4..off + 4 + U16(slab, off + 2)]
  }

  /** (n + 63) &^ 63 */
  function Rounded(n: nat): (c: nat)
    ensures n <= c < n + 64 && c % 64 == 0
  {
    (n + 63) / 64 * 64
  }

  // ------------------------------------------------------------------- memory

  ghost function Sizes(spans: map<Key, Span>): map<Key, nat>
    requires forall k :: k in spans ==> spans[k].off <= spans[k].end
  {
    map k | k in spans :: spans[k].end - spans[k].off
  }

  /** The slab and its index with the map from node to blob they stand for. */
  datatype Memory = Memory(index: map<Key, nat>, slab: bytes, dead: nat, spans: map<Key, Span>,
                           contents: map<Key, bytes>)

  ghost predicate AllHeld(slab: bytes, spans: map<Key, Span>, contents: map<Key, bytes>) {
    spans.Keys == contents.Keys && forall k {:trigger k in spans} :: k in spans ==> Holds(slab, spans[k], contents[k])
  }

  ghost predicate AllApart(spans: map<Key, Span>) {
    forall k, l {:trigger Apart(spans[k], spans[l])} :: k in spans && l in spans && k != l ==> Apart(spans[k], spans[l])
  }

  ghost predicate IndexIs(index: map<Key, nat>, spans: map<Key, Span>) {
    index.Keys == spans.Keys && forall k {:trigger k in index} :: k in index ==> index[k] == spans[k].off
  }

  /** Live slots hold their blobs, never overlap, and dead counts the rest. */
  ghost predicate MemoryInv(m: Memory) {
    && IndexIs(m.index, m.spans) && AllHeld(m.slab, m.spans, m.contents) && AllApart(m.spans)
    && |m.slab| == m.dead + Total(Sizes(m.spans))
  }

  type Sound = m: Memory | MemoryInv(m)
    ghost witness Memory(map[], [], 0, map[], map[])

  lemma SlotKept(slab: bytes, slab': bytes, s: Span, blob: bytes, lo: nat, hi: nat)
    requires Holds(slab, s, blob) && Same(slab, slab', lo, hi) && lo <= s.off && s.end <= hi
    ensures Holds(slab', s, blob)
  {
    SliceSlice(slab, lo, hi, s.off - lo, s.end - lo);
    SliceSlice(slab', lo, hi, s.off - lo, s.end - lo);
    HoldsMoved(slab, s, blob, slab', s.off);
  }

  lemma RewriteHeld(slab: bytes, slab': bytes, spans: map<Key, Span>, contents: map<Key, bytes>, key: Key, blob: bytes)
    requires AllHeld(slab, spans, contents) && AllApart(spans) && key in spans && Holds(slab', spans[key], blob)
    requires Same(slab, slab', 0, spans[key].off) && Same(slab, slab', spans[key].end, |slab|)
    ensures AllHeld(slab', spans, contents[key := blob])
  {
    forall k {:trigger k in spans} | k in spans && k != key ensures Holds(slab', spans[k], contents[k]) {
      assert Apart(spans[k], spans[key]);
      if spans[k].end <= spans[key].off { SlotKept(slab, slab', spans[k], contents[k], 0, spans[key].off); }
      else { SlotKept(slab, slab', spans[k], contents[k], spans[key].end, |slab|); }
    }
  }

  lemma AppendHeld(slab: bytes, slab': bytes, spans: map<Key, Span>, contents: map<Key, bytes>, key: Key, s: Span,
                   blob: bytes)
    requires AllHeld(slab, spans, contents) && AllApart(spans) && Holds(slab', s, blob) && s.off == |slab|
    requires Same(slab, slab', 0, |slab|)
    ensures AllHeld(slab', spans[key := s], contents[key := blob]) && AllApart(spans[key := s])
  {
    var spans' := spans[key := s];
    forall k {:trigger k in spans'} | k in spans' && k != key ensures Holds(slab', spans[k], contents[k]) {
      SlotKept(slab, slab', spans[k], contents[k], 0, |slab|);
    }
    forall k, l {:trigger Apart(spans'[k], spans'[l])} | k in spans' && l in spans' && k != l
      ensures Apart(spans'[k], spans'[l])
    {
      if k != key && l != key { assert Apart(spans[k], spans[l]); }
    }
  }

  lemma SizesPut(spans: map<Key, Span>, key: Key, s: Span)
    requires (forall k :: k in spans ==> spans[k].off <= spans[k].end) && s.off <= s.end
    ensures Total(Sizes(spans[key := s])) ==
            s.end - s.off + Total(Sizes(spans)) - (if key in spans then spans[key].end - spans[key].off else 0)
  {
    TotalPut(Sizes(spans), key, s.end - s.off);
    assert Sizes(spans)[key := s.end - s.off] == Sizes(spans[key := s]);
  }

  lemma Rewritten(m: Sound, slab: bytes, key: Key, blob: bytes) returns (m': Sound)
    requires key in m.spans && |slab| == |m.slab| && Holds(slab, m.spans[key], blob)
    requires Same(m.slab, slab, 0, m.spans[key].off) && Same(m.slab, slab, m.spans[key].end, |slab|)
    ensures m' == m.(slab := slab, contents := m.contents[key := blob])
  {
    RewriteHeld(m.slab, slab, m.spans, m.contents, key, blob);
    m' := m.(slab := slab, contents := m.contents[key := blob]);
  }

  lemma Appended(m: Sound, slab: bytes, key: Key, s: Span, blob: bytes) returns (m': Sound)
    requires Holds(slab, s, blob) && s.off == |m.slab| && s.end == |slab| && Same(m.slab, slab, 0, |m.slab|)
    ensures key in m.index ==> key in m.spans
    ensures m'.index == m.index[key := s.off] && m'.slab == slab && m'.contents == m.contents[key := blob]
    ensures m'.spans == m.spans[key := s]
    ensures m'.dead == m.dead + if key in m.index then m.spans[key].end - m.spans[key].off else 0
  {
    AppendHeld(m.slab, slab, m.spans, m.contents, key, s, blob);
    SizesPut(m.spans, key, s);
    IndexPut(m.index, m.spans, key, s);
    var dead := m.dead + if key in m.index then m.spans[key].end - m.spans[key].off else 0;
    m' := Assemble(m.index[key := s.off], slab, dead, m.spans[key := s], m.contents[key := blob]);
  }

  lemma IndexPut(index: map<Key, nat>, spans: map<Key, Span>, key: Key, s: Span)
    requires IndexIs(index, spans)
    ensures IndexIs(index[key := s.off], spans[key := s])
  {
  }

  lemma Assemble(index: map<Key, nat>, slab: bytes, dead: nat, spans: map<Key, Span>, contents: map<Key, bytes>)
    returns (m: Sound)
    requires IndexIs(index, spans) && AllHeld(slab, spans, contents) && AllApart(spans)
    requires |slab| == dead + Total(Sizes(spans))
    ensures m == Memory(index, slab, dead, spans, contents)
  {
    m := Memory(index, slab, dead, spans, contents);
  }

  lemma Found(m: Sound, key: Key)
    ensures key in m.index <==> key in m.contents
    ensures key in m.index ==> key in m.spans && m.index[key] == m.spans[key].off
    ensures key in m.index ==> Holds(m.slab, m.spans[key], m.contents[key])
  {
  }

  // -------------------------------------------------------------- compaction

  /** move: one slot copied to the end of the new slab. */
  method Move(slab: bytes, off: nat, out: bytes, ghost s: Span, ghost blob: bytes) returns (out': bytes, ghost s': Span)
    requires Holds(slab, s, blob) && s.off == off
    ensures s'.off == |out| && s'.end == |out'| && s'.end - s'.off == s.end - s.off && Holds(out', s', blob)
    ensures Same(out, out', 0, |out|)
  {
    var c := U16(slab, off);
    out' := out + slab[off..off + 4 + c];
    s' := Span(|out|, |out'|);
    assert out'[|out|..|out| + (s.end - s.off)] == slab[s.off..s.end];
    HoldsMoved(slab, s, blob, out', |out|);
    assert out'[..|out|] == out;
  }

  ghost predicate SameSize(a: Span, b: Span) { a.end - a.off == b.end - b.off }

  /** ns and nc are the done part of ms and mc, moved. */
  ghost predicate Part(ms: map<Key, Span>, mc: map<Key, bytes>, ns: map<Key, Span>, nc: map<Key, bytes>,
                       todo: set<Key>) {
    && ns.Keys == nc.Keys == mc.Keys - todo && ms.Keys == mc.Keys && todo <= mc.Keys
    && (forall k {:trigger k in nc} :: k in nc ==> nc[k] == mc[k])
    && (forall k {:trigger k in ns} :: k in ns ==> SameSize(ns[k], ms[k]))
  }

  lemma PartOn(ms: map<Key, Span>, mc: map<Key, bytes>, ns: map<Key, Span>, nc: map<Key, bytes>, todo: set<Key>, k: Key,
               s: Span)
    requires Part(ms, mc, ns, nc, todo) && k in todo && SameSize(s, ms[k])
    ensures Part(ms, mc, ns[k := s], nc[k := mc[k]], todo - {k})
  {
  }

  lemma SameKeys(m: Sound)
    ensures m.index.Keys == m.spans.Keys == m.contents.Keys
    ensures forall k {:trigger k in m.spans} :: k in m.spans ==> m.spans[k].off <= m.spans[k].end
  {
  }

  /** The index while it is rewritten: the keys still to do where they were. */
  ghost predicate Mixed(index: map<Key, nat>, before: map<Key, nat>, after: map<Key, nat>, todo: set<Key>) {
    && index.Keys == before.Keys == after.Keys + todo
    && (forall k {:trigger k in index} :: k in index ==>
          if k in todo then index[k] == before[k] else k in after && index[k] == after[k])
  }

  lemma MixedOn(index: map<Key, nat>, before: map<Key, nat>, after: map<Key, nat>, todo: set<Key>, k: Key, off: nat)
    requires Mixed(index, before, after, todo) && k in todo
    ensures Mixed(index[k := off], before, after[k := off], todo - {k})
  {
  }

  lemma MixedEnd(index: map<Key, nat>, before: map<Key, nat>, after: map<Key, nat>)
    requires Mixed(index, before, after, {})
    ensures index == after
  {
    assert index.Keys == after.Keys;
  }

  /** One entry of either index map is moved. */
  method MoveKey(slab: bytes, off: nat, out: bytes, k: Key, ghost m: Sound, ghost n: Sound)
    returns (out': bytes, ghost n': Sound, ghost s: Span)
    requires k in m.index && m.slab == slab && n.slab == out && off == m.index[k] && k !in n.index
    ensures k in m.spans && k in m.contents && SameSize(s, m.spans[k]) && s.off == |out|
    ensures n'.slab == out' && n'.dead == n.dead && n'.index == n.index[k := s.off]
    ensures n'.spans == n.spans[k := s] && n'.contents == n.contents[k := m.contents[k]]
  {
    Found(m, k);
    out', s := Move(slab, off, out, m.spans[k], m.contents[k]);
    n' := Appended(n, out', k, s, m.contents[k]);
  }

  /** compact: only the live slots survive, each with its blob. */
  method CompactSlab(index: map<Key, nat>, slab: bytes, ghost m: Sound)
    returns (index': map<Key, nat>, out: bytes, ghost m': Sound)
    requires m.index == index && m.slab == slab
    ensures m'.index == index' && m'.slab == out && m'.dead == 0 && m'.contents == m.contents
    ensures |out| == |slab| - m.dead
  {
    index', out, m' := MoveAll(index, slab, m);
    AllMoved(m, m');
    MixedEnd(index', index, m'.index);
  }

  /** The loop of compact: key by key into a new slab. */
  method MoveAll(index: map<Key, nat>, slab: bytes, ghost m: Sound)
    returns (index': map<Key, nat>, out: bytes, ghost n: Sound)
    requires m.index == index && m.slab == slab
    ensures n.slab == out && n.dead == 0
    ensures Part(m.spans, m.contents, n.spans, n.contents, {}) && Mixed(index', index, n.index, {})
  {
    index', out := index, [];
    n := Nothing();
    SameKeys(m);
    PartNone(m.spans, m.contents);
    var todo := index.Keys;
    while todo != {}
      invariant Part(m.spans, m.contents, n.spans, n.contents, todo) && Mixed(index', index, n.index, todo)
      invariant n.slab == out && n.dead == 0 && forall x {:trigger x in n.index} :: x in todo ==> x !in n.index
      decreases todo
    {
      var k :| k in todo;
      var at := |out|;
      ghost var s;
      MixedOn(index', index, n.index, todo, k, at);
      out, n, s := MoveStep(slab, index'[k], out, k, m, n, todo);
      index', todo := index'[k := at], todo - {k};
    }
  }

  method MoveStep(slab: bytes, off: nat, out: bytes, k: Key, ghost m: Sound, ghost n: Sound, ghost todo: set<Key>)
    returns (out': bytes, ghost n': Sound, ghost s: Span)
    requires k in m.index && m.slab == slab && n.slab == out && off == m.index[k] && k !in n.index
    requires Part(m.spans, m.contents, n.spans, n.contents, todo) && k in todo
    ensures n'.slab == out' && n'.dead == n.dead && n'.index == n.index[k := |out|]
    ensures Part(m.spans, m.contents, n'.spans, n'.contents, todo - {k})
  {
    out', n', s := MoveKey(slab, off, out, k, m, n);
    PartOn(m.spans, m.contents, n.spans, n.contents, todo, k, s);
  }

  lemma Nothing() returns (n: Sound)
    ensures n == Memory(map[], [], 0, map[], map[])
  {
    n := Memory(map[], [], 0, map[], map[]);
  }

  lemma AllMoved(m: Sound, n: Sound)
    requires Part(m.spans, m.contents, n.spans, n.contents, {}) && n.dead == 0
    ensures n.contents == m.contents && |n.slab| == |m.slab| - m.dead
  {
    SlabSize(m);
    SlabSize(n);
    PartWhole(m.spans, m.contents, n.spans, n.contents);
  }

  lemma SlabSize(m: Sound)
    ensures (forall k {:trigger k in m.spans} :: k in m.spans ==> m.spans[k].off <= m.spans[k].end)
    ensures |m.slab| == m.dead + Total(Sizes(m.spans))
  {
  }

  lemma PartWhole(ms: map<Key, Span>, mc: map<Key, bytes>, ns: map<Key, Span>, nc: map<Key, bytes>)
    requires Part(ms, mc, ns, nc, {})
    requires forall k {:trigger k in ms} :: k in ms ==> ms[k].off <= ms[k].end
    requires forall k {:trigger k in ns} :: k in ns ==> ns[k].off <= ns[k].end
    ensures nc == mc && Total(Sizes(ns)) == Total(Sizes(ms))
  {
    assert nc.Keys == mc.Keys;
    SizesSame(ns, ms);
  }

  lemma PartNone(ms: map<Key, Span>, mc: map<Key, bytes>)
    requires ms.Keys == mc.Keys
    ensures Part(ms, mc, map[], map[], mc.Keys)
  {
  }

  lemma SizesSame(a: map<Key, Span>, b: map<Key, Span>)
    requires a.Keys == b.Keys
    requires forall k {:trigger k in a} :: k in a ==>
               SameSize(a[k], b[k]) && a[k].off <= a[k].end && b[k].off <= b[k].end
    ensures (forall k :: k in b ==> b[k].off <= b[k].end) && Total(Sizes(a)) == Total(Sizes(b))
  {
    assert forall k :: k in b ==> k in a;
    assert Sizes(a) == Sizes(b);
  }

  // ------------------------------------------------------------------ overlay

  const CompactAt: nat := 32 * 1024 * 1024

  /** offset and setOffset: which map and key a node is under. */
  method Locate(owner: bytes, path: bytes) returns (k: Key)
    ensures k == KeyOf(owner, path)
  {
    var n := PackPath(path);
    k := if n.Some? then Short(owner, n.value) else Long(owner + path);
  }

  method BlobAt(slab: bytes, off: nat, ghost s: Span, ghost blob: bytes) returns (b: bytes)
    requires Holds(slab, s, blob) && off == s.off
    ensures b == blob
  {
    b := slab[off + 4..off + 4 + U16(slab, off + 2)];
  }

  /** Whether the node has a slot the blob fits. */
  method Fits(slab: bytes, index: map<Key, nat>, k: Key, blob: bytes, ghost m: Sound) returns (fits: bool)
    requires m.slab == slab && m.index == index
    ensures fits <==> InPlace(index, slab, k, blob)
  {
    Found(m, k);
    fits := k in index && |blob| <= U16(slab, index[k]);
  }

  method Replace(slab: bytes, off: nat, k: Key, blob: bytes, ghost m: Sound) returns (slab': bytes, ghost m': Sound)
    requires m.slab == slab && k in m.index && m.index[k] == off && off + 2 <= |slab| && |blob| <= U16(slab, off)
    ensures m'.index == m.index && m'.slab == slab' && m'.dead == m.dead && m'.contents == m.contents[k := blob]
  {
    Found(m, k);
    slab' := Overwrite(slab, off, blob, m.spans[k], m.contents[k]);
    m' := Rewritten(m, slab', k, blob);
  }

  /** The node has a slot with room for the blob. */
  predicate InPlace(index: map<Key, nat>, slab: bytes, k: Key, blob: bytes) {
    k in index && index[k] + 2 <= |slab| && |blob| <= U16(slab, index[k])
  }

  /** The slot's header does not give its size, and a lookup reads the blob up to its
      length in 16 bits: all of one below 65536 bytes, the start of a longer one. */
  ghost predicate Missized(index: map<Key, nat>, slab: bytes, k: Key, blob: bytes) {
    && k in index && Legible(slab, index[k]) && ReadAt(slab, index[k]) == blob[..|blob| % 65536]
    && !Holds(slab, Span(index[k], |slab|), blob)
  }

  class Overlay {
    var index: map<Key, nat>
    var slab: bytes
    var dead: nat
    ghost var mem: Sound

    ghost predicate Valid()
      reads this
    {
      mem.index == index && mem.slab == slab && mem.dead == dead
    }

    /** The retained blob of a node, if any; an empty one shadows the file. */
    ghost function Blob(owner: bytes, path: bytes): Option<bytes>
      reads this
    {
      if KeyOf(owner, path) in mem.contents then Some(mem.contents[KeyOf(owner, path)]) else None
    }

    constructor ()
      ensures Valid() && mem.contents == map[]
    {
      index, slab, dead := map[], [], 0;
      ghost var n := Nothing();
      mem := n;
    }

    method Lookup(owner: bytes, path: bytes) returns (blob: Option<bytes>)
      requires Valid()
      ensures blob == Blob(owner, path)
    {
      var k := Locate(owner, path);
      Found(mem, k);
      if k !in index { return None; }
      var b := BlobAt(slab, index[k], mem.spans[k], mem.contents[k]);
      return Some(b);
    }

    /** put: in place when it fits the slot, else in a new one. A blob that 16 bits
        cannot size, which no trie node is, leaves a slot with the wrong capacity. */
    method Put(owner: bytes, path: bytes, blob: bytes) returns (ghost sized: bool)
      requires Valid() && |owner| == 32
      modifies this
      ensures sized <==> Rounded(|blob|) < 65536 || old(InPlace(index, slab, KeyOf(owner, path), blob))
      ensures sized ==> Valid() && mem.contents == old(mem.contents)[KeyOf(owner, path) := blob]
      ensures sized ==> forall o, p {:trigger Blob(o, p)} :: |o| == 32 ==>
                Blob(o, p) == if o == owner && p == path then Some(blob) else old(Blob(o, p))
      ensures !sized ==> Missized(index, slab, KeyOf(owner, path), blob)
    {
      var k := Locate(owner, path);
      sized := PutKey(k, blob);
      forall o, p | |o| == 32 && KeyOf(o, p) == k ensures o == owner && p == path { KeyInjective(o, p, owner, path); }
    }

    method PutKey(k: Key, blob: bytes) returns (ghost sized: bool)
      requires Valid()
      modifies this
      ensures sized <==> Rounded(|blob|) < 65536 || old(InPlace(index, slab, k, blob))
      ensures sized ==> Valid() && mem.contents == old(mem.contents)[k := blob]
      ensures !sized ==> Missized(index, slab, k, blob)
    {
      var fits := Fits(slab, index, k, blob, mem);
      sized := fits || Rounded(|blob|) < 65536;
      if fits { PutInPlace(k, blob); } else { PutNew(k, blob); }
    }

    method PutInPlace(k: Key, blob: bytes)
      requires Valid() && InPlace(index, slab, k, blob)
      modifies this`slab, this`mem
      ensures Valid() && mem.contents == old(mem.contents)[k := blob]
    {
      slab, mem := Replace(slab, index[k], k, blob, mem);
    }

    method PutNew(k: Key, blob: bytes)
      requires Valid()
      modifies this
      ensures Rounded(|blob|) < 65536 ==> Valid() && mem.contents == old(mem.contents)[k := blob]
      ensures Rounded(|blob|) >= 65536 ==> Missized(index, slab, k, blob)
    {
      Found(mem, k);
      if k in index { dead := dead + U16(slab, index[k]) + 4; }
      var off := |slab|;
      ghost var s;
      slab, s := Extend(slab, blob);
      index := index[k := off];
      if Rounded(|blob|) < 65536 { mem := Appended(mem, slab, k, s, blob); }
    }

    /** compact: worth it only past a size, and then it changes no answer. */
    method MaybeCompact()
      requires Valid()
      modifies this
      ensures Valid() && mem.contents == old(mem.contents)
      ensures old(dead < CompactAt || dead < |slab| / 2) ==> slab == old(slab)
      ensures old(dead >= CompactAt && dead >= |slab| / 2) ==> dead == 0 && |slab| == old(|slab| - dead)
    {
      if dead < CompactAt || dead < |slab| / 2 { return; }
      index, slab, mem := CompactSlab(index, slab, mem);
      dead := 0;
    }
  }
}
