/** store/container.go: a container cut into a header, transactions and a template,
    and put back together byte for byte. */
module Container {
  import opened Bytes
  import opened Rlp

  function Concat(parts: seq<bytes>): bytes {
    if parts == [] then [] else Concat(parts[..|parts| - 1]) + parts[|parts| - 1]
  }

  // ------------------------------------------------------------- reassembling

  /** The fewest bytes that hold x. */
  function Width(x: nat): nat {
    if x == 0 then 0 else 1 + Width(x / 256)
  }

  /** An RLP list around its items. */
  function ListOf(content: bytes): bytes
    requires Width(|content|) <= 8
  {
    if |content| < 56 then [(0xC0 + |content|) as byte] + content
    else [(0xF7 + Width(|content|)) as byte] + Be(|content|, Width(|content|)) + content
  }

  /** The pre-proposervm shorthand: header, transactions, no uncles. */
  function Bare(header: bytes, txs: seq<bytes>): Option<bytes> {
    if Width(|Concat(txs)|) > 8 then None else
    var body := header + ListOf(Concat(txs)) + ListOf([]);
    if Width(|body|) > 8 then None else Some(ListOf(body))
  }

  method Append(out: bytes, parts: seq<bytes>) returns (out': bytes)
    ensures out' == out + Concat(parts)
  {
    out' := out;
    for i := 0 to |parts|
      invariant out' == out + Concat(parts[..i])
    {
      DropDrop(parts, i);
      assert parts[..i + 1][..i] == parts[..i];
      ConcatAssoc(out, Concat(parts[..i]), parts[i]);
      out' := out' + parts[i];
    }
    assert parts[..|parts|] == parts;
  }

  /** What a pvm row says to put before, between and after; None when malformed. */
  function Template(pvm: bytes): Option<(bytes, bytes, bytes)> {
    if |pvm| < 8 then None else
    var la := UnBe(pvm[..4]);
    if 4 + la + 4 > |pvm| then None else
    var lb := UnBe(pvm[4 + la..8 + la]);
    if 8 + la + lb > |pvm| then None
    else Some((pvm[4..4 + la], pvm[8 + la..8 + la + lb], pvm[8 + la + lb..]))
  }

  function Rebuilt(pvm: bytes, header: bytes, txs: seq<bytes>): Option<bytes> {
    if pvm == [] then Bare(header, txs) else
    match Template(pvm)
    case None => None
    case Some((a, b, c)) => Some(a + header + b + Concat(txs) + c)
  }

  method Reassemble(pvm: bytes, header: bytes, txs: seq<bytes>) returns (out: Option<bytes>)
    ensures out == Rebuilt(pvm, header, txs)
  {
    if pvm == [] { return Bare(header, txs); }
    var t := Template(pvm);
    if t.None? { return None; }
    var (a, b, c) := t.value;
    var front := Append(a + header + b, txs);
    return Some(front + c);
  }

  /** pvmTemplate: [len A] A [len B] B C around the two spans. */
  function MakeTemplate(raw: bytes, hs: nat, he: nat, ts: nat, te: nat): (pvm: bytes)
    requires hs <= he <= ts <= te <= |raw|
    ensures |pvm| >= 8
  {
    Be(hs, 4) + raw[..hs] + Be(ts - he, 4) + raw[he..ts] + raw[te..]
  }

  lemma TemplateCut(l: bytes, a: bytes, m: bytes, b: bytes, c: bytes)
    requires |l| == |m| == 4
    ensures var pvm := l + a + m + b + c; var la, lb := |a|, |b|;
            && pvm[..4] == l && pvm[4..4 + la] == a && pvm[4 + la..8 + la] == m
            && pvm[8 + la..8 + la + lb] == b && pvm[8 + la + lb..] == c
  {
  }

  lemma TemplateBack(raw: bytes, hs: nat, he: nat, ts: nat, te: nat)
    requires hs <= he <= ts <= te <= |raw| && hs < Pow256(4) && ts - he < Pow256(4)
    ensures Template(MakeTemplate(raw, hs, he, ts, te)) == Some((raw[..hs], raw[he..ts], raw[te..]))
  {
    TemplateCut(Be(hs, 4), raw[..hs], Be(ts - he, 4), raw[he..ts], raw[te..]);
    UnBeBe(hs, 4);
    UnBeBe(ts - he, 4);
  }

  /** Cutting anywhere and putting the same bytes back loses nothing. */
  lemma TemplateRoundTrip(raw: bytes, hs: nat, he: nat, ts: nat, te: nat, header: bytes, txs: seq<bytes>)
    requires hs <= he <= ts <= te <= |raw| && hs < Pow256(4) && ts - he < Pow256(4)
    requires header == raw[hs..he] && Concat(txs) == raw[ts..te]
    ensures Rebuilt(MakeTemplate(raw, hs, he, ts, te), header, txs) == Some(raw)
  {
    TemplateBack(raw, hs, he, ts, te);
    FivePieces(raw, hs, he, ts, te);
  }

  lemma FivePieces(raw: bytes, a: nat, b: nat, c: nat, d: nat)
    requires a <= b <= c <= d <= |raw|
    ensures raw[..a] + raw[a..b] + raw[b..c] + raw[c..d] + raw[d..] == raw
  {
  }

  // ------------------------------------------------------------------- spans

  datatype Spans = Spans(hs: int, he: int, ts: int, te: int)
  {
    predicate InOrder(n: nat) { 0 <= hs <= he <= ts <= te <= n }
  }

  /** blockSpans: where the header element and the transactions' payload lie. */
  function BlockSpans(inner: bytes): Option<Spans> {
    match SplitList(inner)
    case None => None
    case Some(block) =>
      match Split(block.content)
      case None => None
      case Some(head) =>
        match SplitList(head.rest)
        case None => None
        case Some(body) => Some(SpansOf(|inner|, block, head, body))
  }

  function SpansOf(n: nat, block: Item, head: Item, body: Item): Spans {
    var ts := n - |body.rest| - |body.content|;
    Spans(n - |block.rest| - |block.content|, n - |head.rest|, ts, ts + |body.content|)
  }

  /** An inner block is one item with nothing after it. */
  ghost predicate Single(inner: bytes) { SplitList(inner).Some? && SplitList(inner).value.rest == [] }

  /** x is y's tail from position i. */
  ghost predicate TailAt(y: bytes, i: int, x: bytes) { 0 <= i <= |y| && y[i..] == x }

  lemma TailOfTail(y: bytes, i: nat, x: bytes, j: nat, z: bytes)
    requires TailAt(y, i, x) && TailAt(x, j, z)
    ensures TailAt(y, i + j, z)
  {
  }

  lemma SplitTail(b: bytes)
    requires Split(b).Some?
    ensures var r := Split(b).value; TailAt(b, |b| - |r.rest|, r.rest) && |r.content| + |r.rest| <= |b|
    ensures var r := Split(b).value; b[|b| - |r.rest| - |r.content|..|b| - |r.rest|] == r.content
  {
  }

  /** For a single item the spans are in order, and they cut the header element and
      the transactions' payload. */
  lemma SpansCut(inner: bytes)
    requires Single(inner) && BlockSpans(inner).Some?
    ensures BlockSpans(inner).value.InOrder(|inner|)
    ensures var s := BlockSpans(inner).value;
            var content := SplitList(inner).value.content;
            var head := Split(content).value;
            && inner[s.hs..s.he] == content[..|content| - |head.rest|]
            && inner[s.ts..s.te] == SplitList(head.rest).value.content
  {
    var block := SplitList(inner).value;
    var head := Split(block.content).value;
    var body := SplitList(head.rest).value;
    SplitTail(inner);
    SplitTail(block.content);
    SplitTail(head.rest);
    Located(inner, block.content, head.rest, body.content, body.rest);
  }

  lemma Located(inner: bytes, content: bytes, rest: bytes, payload: bytes, after: bytes)
    requires |content| <= |inner| && TailAt(inner, |inner| - |content|, content)
    requires |rest| <= |content| && TailAt(content, |content| - |rest|, rest)
    requires |payload| + |after| <= |rest| && rest[|rest| - |after| - |payload|..|rest| - |after|] == payload
    ensures inner[|inner| - |content|..|inner| - |rest|] == content[..|content| - |rest|]
    ensures var ts := |inner| - |after| - |payload|; inner[ts..ts + |payload|] == payload
  {
    var n := |inner|;
    TailOfTail(inner, n - |content|, content, |content| - |rest|, rest);
    SliceSlice(inner, n - |content|, n, 0, |content| - |rest|);
    assert inner[n - |content|..n] == content;
    SliceSlice(inner, n - |rest|, n, |rest| - |after| - |payload|, |rest| - |after|);
    assert inner[n - |rest|..n] == rest;
  }

  /** A span of the inner block is the same span of the container. */
  lemma SliceAt(raw: bytes, off: nat, inner: bytes, i: nat, j: nat)
    requires OccursAt(raw, inner, off) && i <= j <= |inner|
    ensures raw[off + i..off + j] == inner[i..j]
  {
    SliceSlice(raw, off, off + |inner|, i, j);
  }

  ghost predicate OccursAt(raw: bytes, x: bytes, k: nat) { k + |x| <= |raw| && raw[k..k + |x|] == x }

  ghost predicate Occurs(raw: bytes, x: bytes) { exists k :: OccursAt(raw, x, k) }

  // --------------------------------------------------------------- splitting

  datatype Pieces = Pieces(header: bytes, txs: seq<bytes>)

  /** The two decoders the split calls: the proposervm wrapper's inner bytes, and the
      inner block's header and transactions, encoded again. */
  datatype Decoders = Decoders(unwrap: bytes -> Option<bytes>, decode: bytes -> Option<Pieces>)

  /** bytes.Index: the first place x occurs in s, or -1. */
  method IndexOf(s: bytes, x: bytes) returns (i: int)
    ensures if i < 0 then i == -1 && !Occurs(s, x) else OccursAt(s, x, i)
    ensures forall k {:trigger OccursAt(s, x, k)} :: 0 <= k < i ==> !OccursAt(s, x, k)
  {
    i := 0;
    while i + |x| <= |s|
      invariant 0 <= i && forall k {:trigger OccursAt(s, x, k)} :: 0 <= k < i ==> !OccursAt(s, x, k)
      decreases |s| - i
    {
      if s[i..i + |x|] == x { return; }
      i := i + 1;
    }
    i := -1;
  }

  /** The decoded block's pieces are the bytes they were decoded from. */
  ghost predicate Verbatim(inner: bytes, p: Pieces) {
    Single(inner) && BlockSpans(inner).Some? && VerbatimAt(inner, BlockSpans(inner).value, p)
  }

  ghost predicate VerbatimAt(inner: bytes, s: Spans, p: Pieces) {
    s.InOrder(|inner|) ==> p.header == inner[s.hs..s.he] && Concat(p.txs) == inner[s.ts..s.te]
  }

  /** The template half of SplitContainer, with its own check, which cannot fail on a
      block that re-encodes verbatim. */
  method Cutout(raw: bytes, inner: bytes, p: Pieces) returns (pvm: Option<bytes>)
    ensures pvm.Some? ==> Rebuilt(pvm.value, p.header, p.txs) == Some(raw)
    ensures |raw| < Pow256(4) && Occurs(raw, inner) && Verbatim(inner, p) ==> pvm.Some?
  {
    var off := IndexOf(raw, inner);
    if off < 0 { return None; }
    var spans := BlockSpans(inner);
    if spans.None? { return None; }
    var s := spans.value;
    if Verbatim(inner, p) { SpansCut(inner); }
    if !s.InOrder(|inner|) { return None; }
    pvm := CutAt(raw, off, inner, s, p);
  }

  method CutAt(raw: bytes, off: nat, inner: bytes, s: Spans, p: Pieces) returns (pvm: Option<bytes>)
    requires OccursAt(raw, inner, off) && s.InOrder(|inner|)
    ensures pvm.Some? ==> Rebuilt(pvm.value, p.header, p.txs) == Some(raw)
    ensures |raw| < Pow256(4) && VerbatimAt(inner, s, p) ==> pvm.Some?
  {
    SliceAt(raw, off, inner, s.hs, s.he);
    SliceAt(raw, off, inner, s.ts, s.te);
    pvm := CheckedTemplate(raw, off + s.hs, off + s.he, off + s.ts, off + s.te, p);
  }

  method CheckedTemplate(raw: bytes, hs: nat, he: nat, ts: nat, te: nat, p: Pieces) returns (pvm: Option<bytes>)
    requires hs <= he <= ts <= te <= |raw|
    ensures pvm.Some? ==> Rebuilt(pvm.value, p.header, p.txs) == Some(raw)
    ensures |raw| < Pow256(4) && p.header == raw[hs..he] && Concat(p.txs) == raw[ts..te] ==> pvm.Some?
  {
    var made := MakeTemplate(raw, hs, he, ts, te);
    if |raw| < Pow256(4) && p.header == raw[hs..he] && Concat(p.txs) == raw[ts..te] {
      TemplateRoundTrip(raw, hs, he, ts, te, p.header, p.txs);
    }
    var out := Reassemble(made, p.header, p.txs);
    if out != Some(raw) { return None; }
    return Some(made);
  }

  /** The inner bytes a container is decoded from. */
  function InnerOf(raw: bytes, d: Decoders): Option<bytes> {
    match d.unwrap(raw)
    case Some(inner) => Some(inner)
    case None => match Split(raw) case None => None case Some(item) => Some(raw[..|raw| - |item.rest|])
  }

  /** SplitContainer: what it accepts reassembles to the container byte for byte, and
      it accepts whatever decodes, lies in the container and re-encodes verbatim. */
  method SplitContainer(raw: bytes, d: Decoders) returns (pvm: Option<bytes>, pieces: Pieces)
    ensures pvm.Some? ==> raw != [] && InnerOf(raw, d).Some? && d.decode(InnerOf(raw, d).value) == Some(pieces)
    ensures pvm.Some? ==> Rebuilt(pvm.value, pieces.header, pieces.txs) == Some(raw)
    ensures raw != [] && |raw| < Pow256(4) && InnerOf(raw, d).Some? && d.decode(InnerOf(raw, d).value).Some?
            && Occurs(raw, InnerOf(raw, d).value)
            && Verbatim(InnerOf(raw, d).value, d.decode(InnerOf(raw, d).value).value)
            ==> pvm.Some?
  {
    pvm, pieces := None, Pieces([], []);
    if raw == [] { return; }
    var inner := InnerOf(raw, d);
    if inner.None? { return; }
    var decoded := d.decode(inner.value);
    if decoded.None? { return; }
    pieces := decoded.value;
    var bare := Reassemble([], pieces.header, pieces.txs);
    if bare == Some(raw) { return Some([]), pieces; }
    pvm := Cutout(raw, inner.value, pieces);
  }
}
