/** latest/run.go: a front-coded sorted run. The writer packs strictly ascending
    entries into 4096-byte blocks under an index of truncated first keys; the
    reader answers a lookup without ever materialising a stored key. */
module LatestRun {
  import opened Bytes

  const BlockSize: nat := 4096
  const PrefixLen: nat := 40
  const FooterLen: nat := 76
  const MaxKey: nat := 255
  const MaxValue: nat := 255
  const Magic: bytes := [101, 112, 111, 99, 104, 114, 117, 110]
  const Version: nat := 1

  type u32 = x: int | 0 <= x < 0x1_0000_0000

  datatype Entry = Entry(key: bytes, value: bytes)

  predicate ValidEntry(e: Entry) {
    1 <= |e.key| <= MaxKey && |e.value| <= MaxValue
  }

  ghost predicate Ascending(es: seq<Entry>) {
    forall i, j {:trigger Less(es[i].key, es[j].key)} :: 0 <= i < j < |es| ==> Less(es[i].key, es[j].key)
  }

  ghost predicate AllValid(es: seq<Entry>) {
    forall i :: 0 <= i < |es| ==> ValidEntry(es[i])
  }

  /** The specification of a lookup: scan the list. */
  function Lookup(es: seq<Entry>, k: bytes): Option<bytes> {
    if es == [] then None
    else if es[0].key == k then Some(es[0].value)
    else Lookup(es[1..], k)
  }

  lemma {:induction false} LookupAt(es: seq<Entry>, k: bytes, i: nat)
    requires Ascending(es) && i < |es| && es[i].key == k
    ensures Lookup(es, k) == Some(es[i].value)
  {
    if i > 0 {
      LessIrreflexive(k);
      assert Less(es[0].key, es[i].key);
      LookupAt(es[1..], k, i - 1);
    }
  }

  lemma {:induction false} LookupAbsent(es: seq<Entry>, k: bytes)
    requires forall i :: 0 <= i < |es| ==> es[i].key != k
    ensures Lookup(es, k) == None
  {
    if es != [] { LookupAbsent(es[1..], k); }
  }

  // ---------------------------------------------------------------- encoding

  /** One entry after a key: shared, unshared and value lengths, suffix, value. */
  function EncodeEntry(prev: bytes, e: Entry): bytes
    requires ValidEntry(e)
  {
    var s := Lcp(prev, e.key);
    [s as byte, (|e.key| - s) as byte, |e.value| as byte] + e.key[s..] + e.value
  }

  ghost function FrontCode(prev: bytes, es: seq<Entry>): bytes
    requires AllValid(es)
    decreases |es|
  {
    if es == [] then [] else EncodeEntry(prev, es[0]) + FrontCode(es[0].key, es[1..])
  }

  ghost function LastKey(prev: bytes, es: seq<Entry>): bytes {
    if es == [] then prev else es[|es| - 1].key
  }

  lemma {:induction false} FrontCodeSnoc(prev: bytes, es: seq<Entry>, e: Entry)
    requires AllValid(es) && ValidEntry(e)
    ensures AllValid(es + [e])
    ensures FrontCode(prev, es + [e]) == FrontCode(prev, es) + EncodeEntry(LastKey(prev, es), e)
    decreases |es|
  {
    if es == [] {
      assert es + [e] == [e];
    } else {
      TailConcat(es, [e]);
      FrontCodeSnoc(es[0].key, es[1..], e);
      ConcatAssoc(EncodeEntry(prev, es[0]), FrontCode(es[0].key, es[1..]), EncodeEntry(LastKey(prev, es), e));
    }
  }

  ghost predicate Fits(es: seq<Entry>) {
    AllValid(es) && 2 + |FrontCode([], es)| <= BlockSize
  }

  /** A finished block: the used length, the entries, zero padding. */
  ghost function EncodeBlock(es: seq<Entry>): (b: bytes)
    requires Fits(es)
    ensures |b| == BlockSize
  {
    var code := FrontCode([], es);
    Le(2 + |code|, 2) + code + Zeros(BlockSize - 2 - |code|)
  }

  /** The first PrefixLen bytes of a key, zero padded. */
  function Pad(key: bytes): (p: bytes)
    ensures |p| == PrefixLen
  {
    if |key| >= PrefixLen then key[..PrefixLen] else key + Zeros(PrefixLen - |key|)
  }

  /** Truncation and padding can merge keys but never reorder them. */
  lemma PadMonotone(a: bytes, b: bytes)
    requires Leq(a, b)
    ensures Leq(Pad(a), Pad(b))
  {
    if a != b {
      var n := Lcp(a, b);
      var p, q := Pad(a), Pad(b);
      assert forall i :: 0 <= i < n ==> a[..n][i] == b[..n][i];
      if n >= PrefixLen {
        assert p == q;
      } else if n < |a| {
        assert p[..n] == q[..n];
        LessAt(p, q, n);
      } else {
        LessTotal(p, q);
        var m := Lcp(q, p);
        assert forall i :: n <= i < PrefixLen ==> p[i] == 0;
        assert forall i :: 0 <= i < n ==> p[i] == q[i];
        assert !Less(q, p);
      }
    }
  }

  // ------------------------------------------------------------------ layout

  /** Where each block starts in the entry list: no block is empty. */
  ghost predicate Tiles(starts: seq<nat>, n: nat) {
    && (|starts| == 0 <==> n == 0)
    && (|starts| > 0 ==> starts[0] == 0)
    && (forall b, c :: 0 <= b < c < |starts| ==> starts[b] < starts[c])
    && (forall b :: 0 <= b < |starts| ==> starts[b] < n)
  }

  ghost function Stop(starts: seq<nat>, n: nat, b: nat): nat
    requires b < |starts|
  {
    if b + 1 < |starts| then starts[b + 1] else n
  }

  ghost function Chunk(es: seq<Entry>, starts: seq<nat>, b: nat): (c: seq<Entry>)
    requires Tiles(starts, |es|) && b < |starts|
    ensures |c| > 0 && c[0] == es[starts[b]]
  {
    es[starts[b]..Stop(starts, |es|, b)]
  }

  /** data holds block b of the layout, index its prefix. */
  ghost predicate BlockStored(data: bytes, es: seq<Entry>, starts: seq<nat>, b: nat)
    requires Tiles(starts, |es|) && b < |starts|
  {
    && (b + 1) * BlockSize <= |data|
    && Fits(Chunk(es, starts, b))
    && data[b * BlockSize..(b + 1) * BlockSize] == EncodeBlock(Chunk(es, starts, b))
  }

  ghost predicate PrefixStored(index: bytes, es: seq<Entry>, starts: seq<nat>, b: nat)
    requires Tiles(starts, |es|) && b < |starts|
  {
    && (b + 1) * PrefixLen <= |index|
    && index[b * PrefixLen..b * PrefixLen + PrefixLen] == Pad(es[starts[b]].key)
  }

  /** Appending to a file moves none of the blocks already in it. */
  lemma BlockKept(data: bytes, more: bytes, es: seq<Entry>, starts: seq<nat>, b: nat)
    requires Tiles(starts, |es|) && b < |starts| && BlockStored(data, es, starts, b)
    ensures BlockStored(data + more, es, starts, b)
  {
    assert (data + more)[b * BlockSize..(b + 1) * BlockSize] == data[b * BlockSize..(b + 1) * BlockSize];
  }

  lemma BlockAppended(data: bytes, es: seq<Entry>, starts: seq<nat>, b: nat)
    requires Tiles(starts, |es|) && b < |starts| && |data| == b * BlockSize
    requires Fits(Chunk(es, starts, b))
    ensures BlockStored(data + EncodeBlock(Chunk(es, starts, b)), es, starts, b)
  {
    var x := EncodeBlock(Chunk(es, starts, b));
    assert (data + x)[|data|..|data| + |x|] == x;
  }

  datatype Run = Run(mm: bytes, index: bytes, nblk: nat, n: nat, user: bytes) {
    function Block(b: nat): (blk: bytes)
      requires (b + 1) * BlockSize <= |mm|
      ensures |blk| == BlockSize
    {
      mm[b * BlockSize..(b + 1) * BlockSize]
    }

    function Prefix(b: nat): bytes
      requires (b + 1) * PrefixLen <= |index|
    {
      index[b * PrefixLen..b * PrefixLen + PrefixLen]
    }

    /** Block b's first key, stored whole at the block start. */
    function FirstKey(b: nat): bytes
      requires (b + 1) * BlockSize <= |mm|
    {
      var blk := Block(b);
      blk[5..5 + blk[3] as int]
    }
  }

  ghost predicate Blocks(data: bytes, full: nat, es: seq<Entry>, starts: seq<nat>)
    requires Tiles(starts, |es|) && full <= |starts|
  {
    forall b :: 0 <= b < full ==> BlockStored(data, es, starts, b)
  }

  ghost predicate Prefixes(index: bytes, es: seq<Entry>, starts: seq<nat>)
    requires Tiles(starts, |es|)
  {
    forall b :: 0 <= b < |starts| ==> PrefixStored(index, es, starts, b)
  }

  /** r is a run of exactly the entries es, cut into blocks at starts. */
  ghost predicate Represents(r: Run, es: seq<Entry>, starts: seq<nat>) {
    && Ascending(es) && AllValid(es)
    && Tiles(starts, |es|) && |starts| == r.nblk
    && Blocks(r.mm, r.nblk, es, starts)
    && Prefixes(r.index, es, starts)
  }

  /** A run together with what it is known to hold. */
  datatype Layout = Layout(run: Run, es: seq<Entry>, starts: seq<nat>)

  type Rep = x: Layout | Represents(x.run, x.es, x.starts) ghost witness Layout(Run([], [], 0, 0, []), [], [])

  // ------------------------------------------------------------------ writer

  /** The byte-by-byte loop of Add and scanBlock. */
  method CommonPrefix(a: bytes, b: bytes) returns (n: nat)
    ensures n == Lcp(a, b)
  {
    n := 0;
    while n < |a| && n < |b| && a[n] == b[n]
      invariant n <= |a| && n <= |b| && a[..n] == b[..n]
    {
      assert a[..n + 1] == a[..n] + [a[n]] && b[..n + 1] == b[..n] + [b[n]];
      n := n + 1;
    }
    LcpIs(a, b, n);
  }

  /** What the writer has put in its buffers after the entries es. */
  datatype Buffers = Buffers(blk: bytes, prev: bytes, index: bytes, n: nat, out: bytes)

  /** The number of blocks already written out. */
  ghost function Full(w: Buffers, starts: seq<nat>): int {
    if |w.blk| > 2 then |starts| - 1 else |starts|
  }

  ghost predicate WriterInv(w: Buffers, es: seq<Entry>, starts: seq<nat>) {
    && 2 <= |w.blk| <= BlockSize
    && Ascending(es) && AllValid(es) && Tiles(starts, |es|)
    && w.n == |es|
    && (w.n > 0 ==> w.prev == es[w.n - 1].key)
    && Full(w, starts) >= 0
    && |w.out| == Full(w, starts) * BlockSize
    && |w.index| == |starts| * PrefixLen
    && Blocks(w.out, Full(w, starts), es, starts)
    && Prefixes(w.index, es, starts)
    && (|w.blk| > 2 ==> w.blk[2..] == FrontCode([], Chunk(es, starts, Full(w, starts))))
  }

  /** The open block as flush writes it. */
  function Finished(blk: bytes): bytes
    requires 2 <= |blk| <= BlockSize
  {
    Le(|blk|, 2) + blk[2..] + Zeros(BlockSize - |blk|)
  }

  lemma FlushKeeps(w: Buffers, es: seq<Entry>, starts: seq<nat>)
    requires WriterInv(w, es, starts) && |w.blk| > 2
    ensures WriterInv(w.(blk := Finished(w.blk)[..2], out := w.out + Finished(w.blk)), es, starts)
  {
    var b := Full(w, starts);
    assert |w.blk[2..]| == |w.blk| - 2;
    assert Finished(w.blk) == EncodeBlock(Chunk(es, starts, b));
    BlockAppended(w.out, es, starts, b);
    forall c | 0 <= c < b ensures BlockStored(w.out + Finished(w.blk), es, starts, c) {
      BlockKept(w.out, Finished(w.blk), es, starts, c);
    }
  }

  lemma AscendingSnoc(es: seq<Entry>, e: Entry)
    requires Ascending(es) && (es != [] ==> Less(es[|es| - 1].key, e.key))
    ensures Ascending(es + [e])
  {
    forall i | 0 <= i < |es| ensures Less(es[i].key, e.key) {
      LeqLessTransitive(es[i].key, es[|es| - 1].key, e.key);
    }
  }

  /** Growing the list leaves every block but the last one alone. */
  lemma ChunkKept(es: seq<Entry>, starts: seq<nat>, e: Entry, starts': seq<nat>, b: nat)
    requires Tiles(starts, |es|) && Tiles(starts', |es| + 1) && b < |starts| && starts <= starts'
    requires starts' == starts + [|es|] || (starts' == starts && b + 1 < |starts|)
    ensures Chunk(es + [e], starts', b) == Chunk(es, starts, b)
  {
  }

  /** Opening a block changes none before it. */
  lemma BlocksKept(out: bytes, es: seq<Entry>, starts: seq<nat>, e: Entry)
    requires Tiles(starts, |es|) && Blocks(out, |starts|, es, starts)
    ensures Tiles(starts + [|es|], |es| + 1) && Blocks(out, |starts|, es + [e], starts + [|es|])
  {
    var es', starts' := es + [e], starts + [|es|];
    forall b | 0 <= b < |starts| ensures BlockStored(out, es', starts', b) {
      ChunkKept(es, starts, e, starts', b);
      assert BlockStored(out, es, starts, b);
    }
  }

  /** Add to an empty block: it opens block |starts| and its index prefix. */
  lemma OpenKeeps(w: Buffers, es: seq<Entry>, starts: seq<nat>, e: Entry)
    requires WriterInv(w, es, starts) && |w.blk| == 2 && ValidEntry(e)
    requires es != [] ==> Less(w.prev, e.key)
    ensures WriterInv(Buffers(w.blk + EncodeEntry([], e), e.key, w.index + Pad(e.key), w.n + 1, w.out),
                      es + [e], starts + [|es|])
  {
    var es', starts', index := es + [e], starts + [|es|], w.index + Pad(e.key);
    AscendingSnoc(es, e);
    BlocksKept(w.out, es, starts, e);
    PrefixAppended(w.index, es, starts, e);
    assert Chunk(es', starts', |starts|) == [e];
    FirstCode(w.blk, e);
  }

  lemma PrefixAppended(index: bytes, es: seq<Entry>, starts: seq<nat>, e: Entry)
    requires Tiles(starts, |es|) && Tiles(starts + [|es|], |es| + 1)
    requires |index| == |starts| * PrefixLen && Prefixes(index, es, starts)
    ensures Prefixes(index + Pad(e.key), es + [e], starts + [|es|])
  {
    var index' := index + Pad(e.key);
    forall b | 0 <= b < |starts| + 1 ensures PrefixStored(index', es + [e], starts + [|es|], b) {
      if b < |starts| {
        assert PrefixStored(index, es, starts, b);
        assert index'[b * PrefixLen..b * PrefixLen + PrefixLen] == index[b * PrefixLen..b * PrefixLen + PrefixLen];
      }
    }
  }

  lemma FirstCode(blk: bytes, e: Entry)
    requires |blk| == 2 && ValidEntry(e)
    ensures (blk + EncodeEntry([], e))[2..] == FrontCode([], [e])
  {
    DropConcat(blk, EncodeEntry([], e), 2);
  }

  /** Add to a block with room left. */
  lemma ExtendKeeps(w: Buffers, es: seq<Entry>, starts: seq<nat>, e: Entry)
    requires WriterInv(w, es, starts) && |w.blk| > 2 && ValidEntry(e) && Less(w.prev, e.key)
    requires |w.blk| + |EncodeEntry(w.prev, e)| <= BlockSize
    ensures WriterInv(w.(blk := w.blk + EncodeEntry(w.prev, e), prev := e.key, n := w.n + 1), es + [e], starts)
  {
    var es', f := es + [e], |starts| - 1;
    AscendingSnoc(es, e);
    forall b | 0 <= b < f ensures BlockStored(w.out, es', starts, b) {
      ChunkKept(es, starts, e, starts, b);
      assert BlockStored(w.out, es, starts, b);
    }
    forall b | 0 <= b < |starts| ensures PrefixStored(w.index, es', starts, b) {
      assert PrefixStored(w.index, es, starts, b);
    }
    ChunkGrows(es, starts, e);
    CodeGrows(w.blk, Chunk(es, starts, f), e);
  }

  lemma ChunkGrows(es: seq<Entry>, starts: seq<nat>, e: Entry)
    requires Tiles(starts, |es|) && |starts| > 0
    ensures Chunk(es + [e], starts, |starts| - 1) == Chunk(es, starts, |starts| - 1) + [e]
  {
  }

  lemma CodeGrows(blk: bytes, chunk: seq<Entry>, e: Entry)
    requires AllValid(chunk) && ValidEntry(e) && chunk != [] && |blk| > 2 && blk[2..] == FrontCode([], chunk)
    ensures AllValid(chunk + [e])
    ensures (blk + EncodeEntry(chunk[|chunk| - 1].key, e))[2..] == FrontCode([], chunk + [e])
  {
    FrontCodeSnoc([], chunk, e);
    DropConcat(blk, EncodeEntry(chunk[|chunk| - 1].key, e), 2);
  }

  /** A writer's buffers with what has been added to them. */
  datatype Added = Added(w: Buffers, es: seq<Entry>, starts: seq<nat>)

  type Written = x: Added | WriterInv(x.w, x.es, x.starts) witness Added(Buffers([0, 0], [], [], 0, []), [], [])

  lemma AfterFlush(x: Written) returns (y: Written)
    requires |x.w.blk| > 2
    ensures y == Added(x.w.(blk := Finished(x.w.blk)[..2], out := x.w.out + Finished(x.w.blk)), x.es, x.starts)
  {
    FlushKeeps(x.w, x.es, x.starts);
    y := Added(x.w.(blk := Finished(x.w.blk)[..2], out := x.w.out + Finished(x.w.blk)), x.es, x.starts);
  }

  lemma AfterOpen(x: Written, e: Entry) returns (y: Written)
    requires |x.w.blk| == 2 && ValidEntry(e) && (x.w.n > 0 ==> Less(x.w.prev, e.key))
    ensures y.es == x.es + [e]
    ensures y.w == Buffers(x.w.blk + EncodeEntry([], e), e.key, x.w.index + Pad(e.key), x.w.n + 1, x.w.out)
  {
    OpenKeeps(x.w, x.es, x.starts, e);
    y := Added(Buffers(x.w.blk + EncodeEntry([], e), e.key, x.w.index + Pad(e.key), x.w.n + 1, x.w.out),
               x.es + [e], x.starts + [|x.es|]);
  }

  lemma AfterExtend(x: Written, e: Entry) returns (y: Written)
    requires |x.w.blk| > 2 && ValidEntry(e) && Less(x.w.prev, e.key)
    requires |x.w.blk| + |EncodeEntry(x.w.prev, e)| <= BlockSize
    ensures y.es == x.es + [e]
    ensures y.w == x.w.(blk := x.w.blk + EncodeEntry(x.w.prev, e), prev := e.key, n := x.w.n + 1)
  {
    ExtendKeeps(x.w, x.es, x.starts, e);
    y := Added(x.w.(blk := x.w.blk + EncodeEntry(x.w.prev, e), prev := e.key, n := x.w.n + 1), x.es + [e], x.starts);
  }

  class Writer {
    var blk: bytes
    var prev: bytes
    var index: bytes
    var n: nat
    const user: bytes
    var out: bytes // what has been written to the file
    ghost var st: Written

    ghost predicate Valid()
      reads this
    {
      |user| == 32 && st.w == Buffers(blk, prev, index, n, out)
    }

    /** The entries accepted so far. */
    ghost function Entries(): seq<Entry>
      reads this
    {
      st.es
    }

    /** NewWriter and SetUserData. */
    constructor (user: bytes)
      requires |user| == 32
      ensures Valid() && Entries() == [] && this.user == user
    {
      blk, prev, index, n, out := [0, 0], [], [], 0, [];
      this.user := user;
      st := Added(Buffers([0, 0], [], [], 0, []), [], []);
    }

    /** flush: close the open block, if there is one. */
    method Flush()
      requires Valid()
      modifies this`blk, this`out, this`st
      ensures Valid() && |blk| == 2 && Entries() == old(Entries())
    {
      if |blk| == 2 { return; }
      st := AfterFlush(st);
      var done := Finished(blk);
      out, blk := out + done, done[..2];
    }

    /** Close: the last block, the index and the footer; the result is the file. */
    method Close(crc: bytes -> u32) returns (file: bytes)
      requires Valid()
      modifies this`blk, this`out, this`st
      ensures Valid() && |blk| == 2 && Entries() == old(Entries())
      ensures file == FileOf(out, index, n, |st.starts|, user, crc)
    {
      Flush();
      assert |index| / PrefixLen == |st.starts|;
      file := FileOf(out, index, n, |index| / PrefixLen, user, crc);
    }

    /** The tail of Add: the entry goes into the open block, or opens one. */
    method Place(key: bytes, value: bytes, shared: nat)
      requires Valid() && ValidEntry(Entry(key, value)) && (n > 0 ==> Less(prev, key))
      requires shared == if |blk| > 2 then Lcp(prev, key) else 0
      requires |blk| + 3 + |key| - shared + |value| <= BlockSize
      modifies this
      ensures Valid() && Entries() == old(Entries()) + [Entry(key, value)]
    {
      ghost var e := Entry(key, value);
      var record := [shared as byte, (|key| - shared) as byte, |value| as byte] + key[shared..] + value;
      assert record == EncodeEntry(if |blk| > 2 then prev else [], e) by { LcpIs([], key, 0); }
      if |blk| == 2 {
        st := AfterOpen(st, e);
        index := index + Pad(key);
      } else {
        st := AfterExtend(st, e);
      }
      blk, prev, n := blk + record, key, n + 1;
    }

    /** Add appends one entry; it refuses a malformed or an unordered one and
        then changes nothing. */
    method Add(key: bytes, value: bytes) returns (ok: bool)
      requires Valid()
      modifies this
      ensures Valid()
      ensures ok <==>
                && ValidEntry(Entry(key, value))
                && (old(Entries()) != [] ==> Less(old(Entries())[|old(Entries())| - 1].key, key))
      ensures Entries() == if ok then old(Entries()) + [Entry(key, value)] else old(Entries())
    {
      if |key| == 0 || |key| > MaxKey || |value| > MaxValue { return false; }
      if n > 0 && !Less(prev, key) { return false; }
      var shared := 0;
      if |blk| > 2 {
        shared := CommonPrefix(prev, key);
        if |blk| + 3 + |key| - shared + |value| > BlockSize {
          Flush();
          shared := 0;
        }
      }
      Place(key, value, shared);
      ok := true;
    }
  }

  // ------------------------------------------------------------------ reader

  /** What a cursor at the head of a front-coded stretch reads. */
  lemma CodeHead(prev: bytes, es: seq<Entry>)
    requires AllValid(es) && es != []
    ensures var code, s, k, v := FrontCode(prev, es), Lcp(prev, es[0].key), es[0].key, es[0].value;
            && |code| >= 3 + (|k| - s) + |v|
            && code[0] as int == s && code[1] as int == |k| - s && code[2] as int == |v|
            && code[3..3 + (|k| - s)] == k[s..]
            && code[3 + (|k| - s)..3 + (|k| - s) + |v|] == v
            && code[3 + (|k| - s) + |v|..] == FrontCode(k, es[1..])
  {
    var s, k, v := Lcp(prev, es[0].key), es[0].key, es[0].value;
    EntryParts(s as byte, (|k| - s) as byte, |v| as byte, k[s..], v, FrontCode(k, es[1..]));
  }

  lemma EntryParts(x: byte, y: byte, z: byte, suf: bytes, val: bytes, rest: bytes)
    ensures var code := ([x, y, z] + suf + val) + rest;
            && code[0] == x && code[1] == y && code[2] == z
            && code[3..3 + |suf|] == suf && code[3 + |suf|..3 + |suf| + |val|] == val
            && code[3 + |suf| + |val|..] == rest
  {
    Cut([x, y, z], suf, val, rest);
  }

  lemma BlockBody(es: seq<Entry>)
    requires Fits(es)
    ensures var b, code := EncodeBlock(es), FrontCode([], es);
            UnLe(b[..2]) == 2 + |code| && b[2..2 + |code|] == code
  {
    var code := FrontCode([], es);
    var used := 2 + |code|;
    assert EncodeBlock(es) == Le(used, 2) + (code + Zeros(BlockSize - used));
    assert EncodeBlock(es)[..2] == Le(used, 2);
    assert Pow256(2) == 65536;
    UnLeLe(used, 2);
  }

  lemma FirstKeyIs(r: Run, es: seq<Entry>, starts: seq<nat>, b: nat)
    requires Represents(r, es, starts) && b < r.nblk
    ensures (b + 1) * BlockSize <= |r.mm| && r.FirstKey(b) == es[starts[b]].key
    ensures (b + 1) * PrefixLen <= |r.index| && r.Prefix(b) == Pad(es[starts[b]].key)
  {
    assert BlockStored(r.mm, es, starts, b) && PrefixStored(r.index, es, starts, b);
    var chunk := Chunk(es, starts, b);
    var k, blk, code := chunk[0].key, r.Block(b), FrontCode([], chunk);
    LcpIs([], k, 0);
    BlockBody(chunk);
    CodeHead([], chunk);
    assert blk[3] == blk[2..2 + |code|][1];
    SliceSlice(blk, 2, 2 + |code|, 3, 3 + |k|);
  }

  /** First keys ascend with the block number. */
  lemma FirstKeysAscend(es: seq<Entry>, starts: seq<nat>, b: nat, c: nat)
    requires Ascending(es) && Tiles(starts, |es|) && b <= c < |starts|
    ensures Leq(es[starts[b]].key, es[starts[c]].key)
    ensures Leq(Pad(es[starts[b]].key), Pad(es[starts[c]].key))
  {
    PadMonotone(es[starts[b]].key, es[starts[c]].key);
  }

  /** A strict order between padded prefixes decides the keys. */
  lemma PadDecides(a: bytes, b: bytes)
    requires Less(Pad(a), Pad(b))
    ensures Less(a, b)
  {
    LeqNotLess(b, a);
    LeqNotLess(Pad(b), Pad(a));
    if Leq(b, a) { PadMonotone(b, a); }
  }

  /** b is the last block whose first key is <= key, or -1. */
  ghost predicate IsSeek(es: seq<Entry>, starts: seq<nat>, key: bytes, b: int)
    requires Tiles(starts, |es|)
  {
    && -1 <= b < |starts|
    && (forall c :: 0 <= c <= b ==> Leq(es[starts[c]].key, key))
    && (forall c :: b < c < |starts| ==> Less(key, es[starts[c]].key))
  }

  /** The first binary search: the number of blocks whose prefix is <= kp, or
      only < kp when strict is set. */
  method SearchPrefix(r: Run, key: bytes, strict: bool, top: nat, ghost es: seq<Entry>, ghost starts: seq<nat>)
    returns (lo: nat)
    requires Represents(r, es, starts) && top <= r.nblk
    ensures lo <= top
    ensures forall c :: 0 <= c < lo ==>
              Leq(Pad(es[starts[c]].key), Pad(key)) && (strict ==> Pad(es[starts[c]].key) != Pad(key))
    ensures forall c :: lo <= c < top ==>
              Leq(Pad(key), Pad(es[starts[c]].key)) && (!strict ==> Pad(es[starts[c]].key) != Pad(key))
  {
    var kp := Pad(key);
    var hi := top;
    lo := 0;
    while lo < hi
      invariant lo <= hi <= top
      invariant forall c :: 0 <= c < lo ==> Leq(Pad(es[starts[c]].key), kp) && (strict ==> Pad(es[starts[c]].key) != kp)
      invariant forall c :: hi <= c < top ==>
                  Leq(kp, Pad(es[starts[c]].key)) && (!strict ==> Pad(es[starts[c]].key) != kp)
    {
      var m := (lo + hi) / 2;
      FirstKeyIs(r, es, starts, m);
      var p := r.Prefix(m);
      LeqNotLess(p, kp);
      LeqNotLess(kp, p);
      LessIrreflexive(kp);
      if Less(p, kp) || (!strict && p == kp) {
        forall c | 0 <= c <= m
          ensures Leq(Pad(es[starts[c]].key), kp) && (strict ==> Pad(es[starts[c]].key) != kp)
        {
          FirstKeysAscend(es, starts, c, m);
          if strict { LeqLessTransitive(Pad(es[starts[c]].key), p, kp); }
          LeqTransitive(Pad(es[starts[c]].key), p, kp);
        }
        lo := m + 1;
      } else {
        forall c | m <= c < top
          ensures Leq(kp, Pad(es[starts[c]].key)) && (!strict ==> Pad(es[starts[c]].key) != kp)
        {
          FirstKeysAscend(es, starts, m, c);
          if !strict { LeqLessTransitive(kp, p, Pad(es[starts[c]].key)); }
          LeqTransitive(kp, p, Pad(es[starts[c]].key));
        }
        hi := m;
      }
    }
  }

  /** The second binary search, over the full first keys of the tied blocks. */
  method SearchKeys(r: Run, key: bytes, from: nat, top: nat, ghost es: seq<Entry>, ghost starts: seq<nat>)
    returns (lo: nat)
    requires Represents(r, es, starts) && from <= top <= r.nblk
    ensures from <= lo <= top
    ensures forall c :: from <= c < lo ==> Leq(es[starts[c]].key, key)
    ensures forall c :: lo <= c < top ==> Less(key, es[starts[c]].key)
  {
    var hi := top;
    lo := from;
    while lo < hi
      invariant from <= lo <= hi <= top
      invariant forall c :: from <= c < lo ==> Leq(es[starts[c]].key, key)
      invariant forall c :: hi <= c < top ==> Less(key, es[starts[c]].key)
    {
      var m := (lo + hi) / 2;
      FirstKeyIs(r, es, starts, m);
      LeqNotLess(r.FirstKey(m), key);
      if Leq(r.FirstKey(m), key) {
        forall c | from <= c <= m ensures Leq(es[starts[c]].key, key) {
          FirstKeysAscend(es, starts, c, m);
          LeqTransitive(es[starts[c]].key, es[starts[m]].key, key);
        }
        lo := m + 1;
      } else {
        forall c | m <= c < top ensures Less(key, es[starts[c]].key) {
          FirstKeysAscend(es, starts, m, c);
          LeqLessTransitive(key, es[starts[m]].key, es[starts[c]].key);
        }
        hi := m;
      }
    }
  }

  /** Equal lengths of zero padding never hide an order: a prefix that is <= but
      not equal puts the whole key on that side. */
  lemma PadSides(a: bytes, key: bytes)
    requires Pad(a) != Pad(key)
    ensures Leq(Pad(a), Pad(key)) ==> Less(a, key)
    ensures Leq(Pad(key), Pad(a)) ==> Less(key, a)
  {
    if Leq(Pad(a), Pad(key)) { PadDecides(a, key); }
    if Leq(Pad(key), Pad(a)) { PadDecides(key, a); }
  }

  /** The tail of seek: the prefix ties and block b starts after key, so find the
      first tied block and search the tied range on the full first keys. */
  method SeekTied(r: Run, key: bytes, b: nat, ghost es: seq<Entry>, ghost starts: seq<nat>) returns (b': int)
    requires Represents(r, es, starts) && b < r.nblk && !Leq(es[starts[b]].key, key)
    requires forall c :: b < c < |starts| ==> Less(key, es[starts[c]].key)
    ensures IsSeek(es, starts, key, b')
  {
    LeqNotLess(es[starts[b]].key, key);
    var tied := SearchPrefix(r, key, true, b, es, starts);
    forall c | 0 <= c < tied ensures Leq(es[starts[c]].key, key) { PadSides(es[starts[c]].key, key); }
    var lo := SearchKeys(r, key, tied, b, es, starts);
    b' := lo as int - 1;
  }

  /** seek: the last block whose first key is <= key, or -1, although the index
      holds only truncated, zero-padded prefixes that may tie. */
  method Seek(r: Run, key: bytes, ghost es: seq<Entry>, ghost starts: seq<nat>) returns (b: int)
    requires Represents(r, es, starts)
    ensures IsSeek(es, starts, key, b)
  {
    var lo := SearchPrefix(r, key, false, r.nblk, es, starts);
    b := lo - 1;
    forall c | lo <= c < r.nblk ensures Less(key, es[starts[c]].key) { PadSides(es[starts[c]].key, key); }
    if b < 0 { return; }
    FirstKeyIs(r, es, starts, b);
    if r.Prefix(b) != Pad(key) || Leq(r.FirstKey(b), key) {
      if r.Prefix(b) != Pad(key) { PadSides(es[starts[b]].key, key); }
      forall c | 0 <= c <= b ensures Leq(es[starts[c]].key, key) {
        FirstKeysAscend(es, starts, c, b);
        LeqTransitive(es[starts[c]].key, es[starts[b]].key, key);
      }
      return;
    }
    b := SeekTied(r, key, b, es, starts);
  }

  /** The state of the block scan between two entries: every entry passed is
      below key, and eq is what the last of them shares with key. */
  ghost predicate Passed(chunk: seq<Entry>, j: nat, key: bytes, eq: nat) {
    && j <= |chunk|
    && (forall i :: 0 <= i < j ==> Less(chunk[i].key, key))
    && eq == Lcp(LastKey([], chunk[..j]), key)
  }

  /** An entry that reuses fewer bytes of its predecessor than key does sorts
      after key. */
  lemma FewerSharedIsAfter(p: bytes, k: bytes, key: bytes)
    requires Less(p, k) && Lcp(p, k) < Lcp(p, key)
    ensures Less(key, k)
  {
    var s, e := Lcp(p, k), Lcp(p, key);
    assert p[..e][s] == key[..e][s] && p[..e][..s] == key[..e][..s];
    assert p[..s] == p[..e][..s] && key[..s] == key[..e][..s];
    LessAt(key, k, s);
  }

  /** One that reuses more sorts before key and shares exactly as much with it. */
  lemma MoreSharedIsBefore(p: bytes, k: bytes, key: bytes)
    requires Less(p, key) && Lcp(p, k) > Lcp(p, key)
    ensures Less(k, key) && Lcp(k, key) == Lcp(p, key)
  {
    var s, e := Lcp(p, k), Lcp(p, key);
    assert p[..s][e] == k[..s][e];
    assert p[..e] == p[..s][..e] && k[..e] == k[..s][..e];
    LcpIs(k, key, e);
  }

  /** With equal sharing the suffixes decide. */
  lemma SuffixDecides(k: bytes, key: bytes, e: nat, j: nat)
    requires e <= |k| && e <= |key| && k[..e] == key[..e] && j == Lcp(k[e..], key[e..])
    ensures Lcp(k, key) == e + j
  {
    assert k[..e + j] == k[..e] + k[e..][..j];
    assert key[..e + j] == key[..e] + key[e..][..j];
    LcpIs(k, key, e + j);
  }

  lemma AbsentAfter(chunk: seq<Entry>, j: nat, key: bytes)
    requires Ascending(chunk) && j <= |chunk| && (j < |chunk| ==> Less(key, chunk[j].key))
    requires forall i :: 0 <= i < j ==> Less(chunk[i].key, key)
    ensures Lookup(chunk, key) == None
  {
    LessIrreflexive(key);
    forall i | j < i < |chunk| ensures Less(key, chunk[i].key) {
      LessTransitive(key, chunk[j].key, chunk[i].key);
    }
    LookupAbsent(chunk, key);
  }

  lemma PassNext(chunk: seq<Entry>, j: nat, key: bytes, eq: nat)
    requires Passed(chunk, j, key, eq) && j < |chunk| && Less(chunk[j].key, key)
    ensures Passed(chunk, j + 1, key, Lcp(chunk[j].key, key))
  {
    DropDrop(chunk, j);
  }

  /** The entry under the cursor when its sharing differs from eq. */
  lemma ScanSkips(chunk: seq<Entry>, j: nat, key: bytes, eq: nat)
    requires Ascending(chunk) && Passed(chunk, j, key, eq) && j < |chunk|
    ensures var sh := Lcp(LastKey([], chunk[..j]), chunk[j].key);
            && (sh < eq ==> Lookup(chunk, key) == None)
            && (sh > eq ==> Passed(chunk, j + 1, key, eq))
  {
    var p, k := LastKey([], chunk[..j]), chunk[j].key;
    if j > 0 { assert p == chunk[j - 1].key; }
    if Lcp(p, k) < eq {
      FewerSharedIsAfter(p, k, key);
      AbsentAfter(chunk, j, key);
    } else if Lcp(p, k) > eq {
      MoreSharedIsBefore(p, k, key);
      PassNext(chunk, j, key, eq);
    }
  }

  /** The entry under the cursor when it shares exactly eq bytes: n suffix bytes
      agree with what is left of key. */
  lemma ScanFinds(chunk: seq<Entry>, j: nat, key: bytes, eq: nat)
    requires Ascending(chunk) && Passed(chunk, j, key, eq) && j < |chunk|
    requires eq == Lcp(LastKey([], chunk[..j]), chunk[j].key) && chunk[j].key[eq..] == key[eq..]
    ensures Lookup(chunk, key) == Some(chunk[j].value)
  {
    var k := chunk[j].key;
    assert k == k[..eq] + k[eq..] && key == key[..eq] + key[eq..];
    LookupAt(chunk, key, j);
  }

  lemma ScanStops(chunk: seq<Entry>, j: nat, key: bytes, eq: nat)
    requires Ascending(chunk) && Passed(chunk, j, key, eq) && j < |chunk|
    requires eq == Lcp(LastKey([], chunk[..j]), chunk[j].key) && Less(key[eq..], chunk[j].key[eq..])
    ensures Lookup(chunk, key) == None
  {
    var n := Lcp(key[eq..], chunk[j].key[eq..]);
    SuffixDecides(key, chunk[j].key, eq, n);
    LessAt(key, chunk[j].key, eq + n);
    AbsentAfter(chunk, j, key);
  }

  lemma ScanPasses(chunk: seq<Entry>, j: nat, key: bytes, eq: nat)
    requires Ascending(chunk) && Passed(chunk, j, key, eq) && j < |chunk|
    requires eq == Lcp(LastKey([], chunk[..j]), chunk[j].key) && Less(chunk[j].key[eq..], key[eq..])
    ensures Passed(chunk, j + 1, key, eq + Lcp(chunk[j].key[eq..], key[eq..]))
  {
    var n := Lcp(chunk[j].key[eq..], key[eq..]);
    SuffixDecides(chunk[j].key, key, eq, n);
    LessAt(chunk[j].key, key, eq + n);
    PassNext(chunk, j, key, eq);
  }

  /** Moving the cursor over one entry. */
  lemma CursorMoves(b: bytes, i: nat, used: nat, prev: bytes, es: seq<Entry>)
    requires AllValid(es) && es != [] && i <= used <= |b| && b[i..used] == FrontCode(prev, es)
    ensures var s, k, v := Lcp(prev, es[0].key), es[0].key, es[0].value;
            var i' := i + 3 + (|k| - s) + |v|;
            && i' <= used
            && b[i] as int == s && b[i + 1] as int == |k| - s && b[i + 2] as int == |v|
            && b[i + 3..i + 3 + (|k| - s)] == k[s..]
            && b[i + 3 + (|k| - s)..i'] == v
            && b[i'..used] == FrontCode(k, es[1..])
  {
    CodeHead(prev, es);
    var code, s, k, v := b[i..used], Lcp(prev, es[0].key), es[0].key, es[0].value;
    var x, y := 3 + (|k| - s), 3 + (|k| - s) + |v|;
    assert code[0] == b[i] && code[1] == b[i + 1] && code[2] == b[i + 2];
    SliceSlice(b, i, used, 3, x);
    SliceSlice(b, i, used, x, y);
    SliceSlice(b, i, used, y, used - i);
  }

  /** Reading the entry at offset i: the three length bytes, suffix, value. */
  method ReadEntry(b: bytes, i: nat, used: nat, ghost prev: bytes, ghost es: seq<Entry>)
    returns (sh: nat, suf: bytes, val: bytes, next: nat)
    requires AllValid(es) && i < used <= |b| && b[i..used] == FrontCode(prev, es)
    ensures es != [] && sh == Lcp(prev, es[0].key)
    ensures suf == es[0].key[sh..] && val == es[0].value
    ensures next == i + 3 + |suf| + |val| <= used && b[next..used] == FrontCode(es[0].key, es[1..])
  {
    CursorMoves(b, i, used, prev, es);
    var un, vl := b[i + 1] as int, b[i + 2] as int;
    sh := b[i] as int;
    var at := i + 3;
    suf, val, next := b[at..at + un], b[at + un..at + un + vl], at + un + vl;
  }

  /** What the scan decides at one entry. */
  datatype Verdict = Missing | Found(value: bytes) | Pass(eq: nat)

  method Judge(sh: nat, suf: bytes, val: bytes, key: bytes, eq: nat, ghost chunk: seq<Entry>, ghost j: nat)
    returns (v: Verdict)
    requires Ascending(chunk) && Passed(chunk, j, key, eq) && j < |chunk|
    requires sh == Lcp(LastKey([], chunk[..j]), chunk[j].key)
    requires suf == chunk[j].key[sh..] && val == chunk[j].value
    ensures match v
            case Missing => Lookup(chunk, key) == None
            case Found(x) => Lookup(chunk, key) == Some(x)
            case Pass(eq') => Passed(chunk, j + 1, key, eq')
  {
    ScanSkips(chunk, j, key, eq);
    if sh < eq { return Missing; }
    if sh > eq { return Pass(eq); }
    var rest := key[eq..];
    var n := if |suf| < |rest| then |suf| else |rest|;
    var m := CommonPrefix(suf, rest);
    if (m < n && suf[m] > rest[m]) || (m == n && |suf| > |rest|) {
      LessAt(rest, suf, m);
      ScanStops(chunk, j, key, eq);
      return Missing;
    }
    if m == n && |suf| == |rest| {
      assert suf == suf[..m] == rest[..m] == rest;
      ScanFinds(chunk, j, key, eq);
      return Found(val);
    }
    ScanPasses(chunk, j, key, eq);
    return Pass(eq + m);
  }

  /** scanBlock: the value of key in the block, found without building a key. */
  method ScanBlock(b: bytes, key: bytes, ghost chunk: seq<Entry>) returns (val: Option<bytes>)
    requires Fits(chunk) && Ascending(chunk) && b == EncodeBlock(chunk)
    ensures val == Lookup(chunk, key)
  {
    BlockBody(chunk);
    var used := UnLe(b[..2]);
    var eq, i := 0, 2;
    ghost var j := 0;
    while i < used
      invariant i <= used <= |b|
      invariant Passed(chunk, j, key, eq)
      invariant b[i..used] == FrontCode(LastKey([], chunk[..j]), chunk[j..])
      decreases used - i
    {
      var sh, suf, value, next := ReadEntry(b, i, used, LastKey([], chunk[..j]), chunk[j..]);
      var verdict := Judge(sh, suf, value, key, eq, chunk, j);
      match verdict {
        case Missing => return None;
        case Found(x) => return Some(x);
        case Pass(e) => eq := e;
      }
      i := next;
      DropDrop(chunk, j);
      j := j + 1;
    }
    assert chunk[j..] == [];
    AbsentAfter(chunk, j, key);
    return None;
  }

  /** Entries below and above a window that brackets key cannot hold it. */
  lemma LookupInWindow(es: seq<Entry>, lo: nat, hi: nat, key: bytes)
    requires Ascending(es) && lo < hi <= |es| && Leq(es[lo].key, key) && (hi < |es| ==> Less(key, es[hi].key))
    ensures Lookup(es, key) == Lookup(es[lo..hi], key)
  {
    var chunk := es[lo..hi];
    if i :| 0 <= i < |chunk| && chunk[i].key == key {
      LookupAt(es, key, lo + i);
      LookupAt(chunk, key, i);
    } else {
      LookupAbsent(chunk, key);
      forall i | 0 <= i < |es| ensures es[i].key != key {
        if lo <= i < hi { assert es[i] == chunk[i - lo]; } else { OutsideWindow(es, lo, hi, key, i); }
      }
      LookupAbsent(es, key);
    }
  }

  lemma OutsideWindow(es: seq<Entry>, lo: nat, hi: nat, key: bytes, i: nat)
    requires Ascending(es) && lo < hi <= |es| && Leq(es[lo].key, key) && (hi < |es| ==> Less(key, es[hi].key))
    requires i < lo || hi <= i < |es|
    ensures es[i].key != key
  {
    LessIrreflexive(key);
    if i < lo { LeqLessTransitive(es[i].key, es[lo].key, key); }
    else if i > hi { LessTransitive(key, es[hi].key, es[i].key); }
  }

  /** Only the block seek picks can hold the key. */
  lemma SeekIsolates(es: seq<Entry>, starts: seq<nat>, key: bytes, b: int)
    requires Ascending(es) && Tiles(starts, |es|) && IsSeek(es, starts, key, b)
    ensures b < 0 ==> Lookup(es, key) == None
    ensures b >= 0 ==> Lookup(es, key) == Lookup(Chunk(es, starts, b), key)
  {
    if b < 0 {
      if es != [] { assert Less(key, es[starts[0]].key); }
      AbsentAfter(es, 0, key);
      return;
    }
    LookupInWindow(es, starts[b], Stop(starts, |es|, b), key);
  }

  /** Run.Get is a linear lookup in the list of entries the run was built from. */
  method Get(r: Run, key: bytes, ghost es: seq<Entry>, ghost starts: seq<nat>) returns (val: Option<bytes>)
    requires Represents(r, es, starts)
    ensures val == Lookup(es, key)
  {
    var b := Seek(r, key, es, starts);
    SeekIsolates(es, starts, key, b);
    if b < 0 { return None; }
    assert BlockStored(r.mm, es, starts, b);
    val := ScanBlock(r.Block(b), key, Chunk(es, starts, b));
  }

  // ------------------------------------------------------------------ footer

  /** The footer up to its checksum. */
  function FooterHead(n: nat, nblk: nat, user: bytes): (h: bytes)
    requires |user| == 32
    ensures |h| == FooterLen - 4
  {
    Magic + Le(Version, 4) + Le(BlockSize, 4) + Le(n, 8) + Le(nblk, 8) + Le(nblk * BlockSize, 8) + user
  }

  /** The checksum covers the index and the footer head; crc is the CRC-32 the
      caller brings. */
  function FileOf(out: bytes, index: bytes, n: nat, nblk: nat, user: bytes, crc: bytes -> u32): bytes
    requires |user| == 32
  {
    var head := FooterHead(n, nblk, user);
    out + index + head + Le(crc(index + head), 4)
  }

  datatype Footer = Footer(n: nat, nblk: nat, ioff: nat, user: bytes, sum: nat)

  function ParseFooter(ft: bytes): Option<Footer>
    requires |ft| == FooterLen
  {
    if ft[..8] != Magic || UnLe(ft[8..12]) != Version || UnLe(ft[12..16]) != BlockSize then None
    else Some(Footer(UnLe(ft[16..24]), UnLe(ft[24..32]), UnLe(ft[32..40]), ft[40..72], UnLe(ft[72..])))
  }

  /** Open: the checks of the source, in its order. */
  function Open(mm: bytes, crc: bytes -> u32): (r: Option<Run>) {
    if |mm| < FooterLen then None else
    var raw := mm[|mm| - FooterLen..];
    match ParseFooter(raw)
    case None => None
    case Some(ft) =>
      if ft.nblk > |mm| / BlockSize || ft.ioff != ft.nblk * BlockSize
         || ft.ioff + ft.nblk * PrefixLen + FooterLen != |mm|
      then None else
      var index := mm[ft.ioff..ft.ioff + ft.nblk * PrefixLen];
      if crc(index + raw[..72]) != ft.sum then None
      else Some(Run(mm, index, ft.nblk, ft.n, ft.user))
  }

  lemma FooterCut(a: bytes, b: bytes, c: bytes, d: bytes, e: bytes, f: bytes, g: bytes, h: bytes)
    requires |a| == 8 && |b| == |c| == 4 && |d| == |e| == |f| == 8 && |g| == 32 && |h| == 4
    ensures var ft := a + b + c + d + e + f + g + h;
            && |ft| == FooterLen && ft[..72] == a + b + c + d + e + f + g && ft[72..] == h
            && ft[..8] == a && ft[8..12] == b && ft[12..16] == c && ft[16..24] == d
            && ft[24..32] == e && ft[32..40] == f && ft[40..72] == g
  {
  }

  lemma FooterFields(n: nat, nblk: nat, user: bytes, sum: u32)
    requires |user| == 32 && n < Pow256(8) && nblk * BlockSize < Pow256(8)
    ensures var ft := FooterHead(n, nblk, user) + Le(sum, 4);
            && |ft| == FooterLen && ft[..72] == FooterHead(n, nblk, user)
            && ParseFooter(ft) == Some(Footer(n, nblk, nblk * BlockSize, user, sum))
  {
    FooterCut(Magic, Le(Version, 4), Le(BlockSize, 4), Le(n, 8), Le(nblk, 8), Le(nblk * BlockSize, 8), user,
              Le(sum, 4));
    Pow256Four();
    UnLeLe(Version, 4);
    UnLeLe(BlockSize, 4);
    UnLeLe(n, 8);
    UnLeLe(nblk, 8);
    UnLeLe(nblk * BlockSize, 8);
    UnLeLe(sum, 4);
  }

  lemma FileTail(out: bytes, index: bytes, head: bytes, sum: bytes)
    requires |head| == 72 && |sum| == 4
    ensures var mm := out + index + head + sum;
            && |mm| == |out| + |index| + FooterLen
            && mm[|mm| - FooterLen..] == head + sum && mm[|out|..|out| + |index|] == index
  {
  }

  lemma OpenParsed(mm: bytes, raw: bytes, ft: Footer, crc: bytes -> u32)
    requires |raw| == FooterLen && ParseFooter(raw) == Some(ft)
    requires |mm| == ft.ioff + ft.nblk * PrefixLen + FooterLen && ft.ioff == ft.nblk * BlockSize
    requires mm[|mm| - FooterLen..] == raw && crc(mm[ft.ioff..ft.ioff + ft.nblk * PrefixLen] + raw[..72]) == ft.sum
    ensures Open(mm, crc) == Some(Run(mm, mm[ft.ioff..ft.ioff + ft.nblk * PrefixLen], ft.nblk, ft.n, ft.user))
  {
  }

  /** A file whose last piece parses as its own footer opens. */
  lemma FilePieces(out: bytes, index: bytes, head: bytes, sum: bytes, ft: Footer, crc: bytes -> u32)
    requires |head| == 72 && |sum| == 4 && ParseFooter(head + sum) == Some(ft)
    requires |out| == ft.ioff == ft.nblk * BlockSize && |index| == ft.nblk * PrefixLen && ft.sum == crc(index + head)
    ensures Open(out + index + head + sum, crc) == Some(Run(out + index + head + sum, index, ft.nblk, ft.n, ft.user))
  {
    FileTail(out, index, head, sum);
    OpenParsed(out + index + head + sum, head + sum, ft, crc);
  }

  lemma FileBlocks(out: bytes, mm: bytes, es: seq<Entry>, starts: seq<nat>)
    requires Tiles(starts, |es|) && Blocks(out, |starts|, es, starts) && out <= mm
    ensures Blocks(mm, |starts|, es, starts)
  {
    forall b | 0 <= b < |starts| ensures BlockStored(mm, es, starts, b) {
      BlockKept(out, mm[|out|..], es, starts, b);
      assert mm == out + mm[|out|..];
    }
  }

  lemma {:induction false} CodeLonger(prev: bytes, es: seq<Entry>)
    requires AllValid(es)
    ensures |FrontCode(prev, es)| >= |es|
    decreases |es|
  {
    if es != [] { CodeLonger(es[0].key, es[1..]); }
  }

  /** A block holds fewer entries than bytes. */
  lemma {:induction false} EntriesFit(out: bytes, es: seq<Entry>, starts: seq<nat>, b: nat)
    requires Tiles(starts, |es|) && Blocks(out, |starts|, es, starts) && b <= |starts|
    ensures (if b < |starts| then starts[b] else |es|) <= b * BlockSize
    decreases b
  {
    if b > 0 {
      EntriesFit(out, es, starts, b - 1);
      assert BlockStored(out, es, starts, b - 1);
      CodeLonger([], Chunk(es, starts, b - 1));
    }
  }

  /** Opening what a closed writer left on disk gives a run of its entries. */
  lemma OpenWritten(w: Buffers, user: bytes, es: seq<Entry>, starts: seq<nat>, crc: bytes -> u32)
    requires WriterInv(w, es, starts) && |w.blk| == 2 && |user| == 32
    requires |w.out| < Pow256(8)
    ensures var r := Open(FileOf(w.out, w.index, w.n, |starts|, user, crc), crc);
            r.Some? && Represents(r.value, es, starts) && r.value.user == user && r.value.n == |es|
  {
    var nblk := |starts|;
    EntriesFit(w.out, es, starts, nblk);
    var head := FooterHead(w.n, nblk, user);
    var sum := crc(w.index + head);
    FooterFields(w.n, nblk, user, sum);
    FilePieces(w.out, w.index, head, Le(sum, 4), Footer(w.n, nblk, nblk * BlockSize, user, sum), crc);
    FileBlocks(w.out, FileOf(w.out, w.index, w.n, nblk, user, crc), es, starts);
  }
}
