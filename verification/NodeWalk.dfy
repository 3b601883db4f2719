/** commit/file.go, Node: the walk from a root record down the child offsets. */
module NodeWalk {
  import opened Bytes
  import opened Nibbles
  import opened Rlp
  import opened NodeTrie
  import opened NodeFile

  ghost predicate Classified(nodes: Nodes) {
    forall p :: p in nodes ==> Says(nodes[p])
  }

  /** The shape is the one the blob has. */
  ghost predicate Says(n: Node) { n.shape == ShapeOf(n.blob) }

  /** The pieces of a record, read as the source reads them. */
  method ReadRecord(m: bytes, off: nat, ghost n: Node, ghost cs: seq<nat>) returns (tag: byte, blob: bytes, rest: bytes)
    requires RecordAt(m, off, n, cs) && |m| < Max64
    ensures tag == (if n.shape.Branch? then TagBranch else TagExt) && blob == n.blob && Kids(cs) <= rest
  {
    RecordPieces(m[off..], n, cs);
    tag := m[off];
    var len := Uvarint(m[off + 1..], 0);
    assert m[off..][1..] == m[off + 1..];
    UvarintUv(|n.blob|, 0, m[off + 1..]);
    var size, k := len.value.0, len.value.1;
    blob := m[off + 1 + k..off + 1 + k + size];
    rest := m[off + 1 + k + size..];
    SliceSlice(m, off, |m|, 1 + k, 1 + k + size);
    assert m[off..][1 + k + size..] == rest && m[off..|m|] == m[off..];
  }

  lemma RecordPieces(b: bytes, n: Node, cs: seq<nat>)
    requires Record(n, cs) <= b
    ensures var k := 1 + |Uv(|n.blob|)|;
            && b[0] == (if n.shape.Branch? then TagBranch else TagExt) && k + |n.blob| <= |b|
            && Uv(|n.blob|) <= b[1..] && b[k..k + |n.blob|] == n.blob && Kids(cs) <= b[k + |n.blob|..]
  {
    var tag, len, kids := [if n.shape.Branch? then TagBranch else TagExt], Uv(|n.blob|), Kids(cs);
    Cut(tag, len, n.blob, kids);
    PrefixCut(b, tag, len, n.blob, kids);
  }

  lemma PrefixCut(s: bytes, a: bytes, b: bytes, c: bytes, d: bytes)
    requires a + b + c + d <= s
    ensures a <= s && b <= s[|a|..] && s[|a| + |b|..|a| + |b| + |c|] == c && d <= s[|a| + |b| + |c|..]
  {
    var t := a + b + c + d;
    Cut(a, b, c, d);
    assert s[..|t|] == t;
    assert s[..|a|] == t[..|a|];
    assert s[|a|..|a| + |b|] == t[|a|..|a| + |b|];
    assert s[|a| + |b|..|a| + |b| + |c|] == t[|a| + |b|..|a| + |b| + |c|];
    assert s[|a| + |b| + |c|..|t|] == t[|a| + |b| + |c|..];
  }

  /** The i-th child offset. */
  method ReadChild(kids: bytes, i: nat, ghost cs: seq<nat>) returns (child: nat)
    requires Kids(cs) <= kids && i < |cs| && forall j :: 0 <= j < |cs| ==> cs[j] < Max64
    ensures child == cs[i]
  {
    var rest, j := kids, 0;
    while j < i
      invariant 0 <= j <= i && Kids(cs[j..]) <= rest
    {
      var k := FirstChild(rest, cs[j..]);
      DropDrop(cs, j);
      rest := rest[k.1..];
      j := j + 1;
    }
    var k := FirstChild(rest, cs[i..]);
    return k.0;
  }

  method FirstChild(rest: bytes, ghost cs: seq<nat>) returns (k: (nat, nat))
    requires Kids(cs) <= rest && cs != [] && cs[0] < Max64
    ensures k.0 == cs[0] && k.1 <= |rest| && Kids(cs[1..]) <= rest[k.1..]
  {
    UvarintUv(cs[0], 0, rest);
    k := Uvarint(rest, 0).value;
  }

  method ExtKey(blob: bytes) returns (nib: bytes)
    requires ShapeOf(blob).Ext?
    ensures nib == ShapeOf(blob).key
  {
    var content := SplitList(blob).value.content;
    nib := CompactToHex(SplitString(content).value.content);
  }

  /** Every stored offset is inside the file. */
  lemma OffInFile(f: Filed, c: bytes)
    ensures Off(f.t, c) <= |f.m| && (c in f.t <==> Off(f.t, c) != 0)
  {
    if c in f.t { assert Linked(f.m, f.t, c); }
  }

  lemma ChildOffsFit(f: Filed, p: bytes, shape: Shape)
    requires |f.m| < Max64
    ensures var cs := ChildOffs(f.t, p, shape); forall j :: 0 <= j < |cs| ==> cs[j] < Max64
  {
    var cs := ChildOffs(f.t, p, shape);
    forall j | 0 <= j < |cs| ensures cs[j] < Max64 {
      if shape.Branch? { OffInFile(f, p + [j as byte]); } else { OffInFile(f, p + shape.key); }
    }
  }

  /** Child offsets decrease, so the walk ends. */
  lemma OffDecreases(f: Filed, p: bytes, c: bytes)
    requires p in f.t && IsChild(p, f.t[p].node.shape, c)
    ensures Off(f.t, c) < Off(f.t, p)
  {
    assert Linked(f.m, f.t, p);
  }

  datatype Step = Found(blob: bytes) | Absent | Down(off: nat, used: nat)

  /** What one step of the walk may answer at node q with rest still to go. */
  ghost predicate StepOk(f: Filed, q: bytes, rest: bytes, st: Step) {
    match st
    case Found(blob) => rest == [] && q in f.nodes && f.nodes[q].blob == blob
    case Absent => q + rest !in f.nodes
    case Down(off, k) =>
      && 0 < k <= |rest| && off == Off(f.t, q + rest[..k]) < Off(f.t, q)
      && (q + rest[..k] in f.nodes || q + rest !in f.nodes)
  }

  /** The step at a branch: where the next nibble leads. */
  method StepBranch(kids: bytes, rest: bytes, ghost f: Filed, ghost q: bytes) returns (st: Step)
    requires |f.m| < Max64 && q in f.t && f.t[q].node == f.nodes[q] && f.nodes[q].shape.Branch? && rest != []
    requires rest[0] < 16
    requires Kids(ChildOffs(f.t, q, Branch)) <= kids
    ensures StepOk(f, q, rest, st)
  {
    ChildOffsFit(f, q, Branch);
    OffDecreases(f, q, q + [rest[0]]);
    var off := ReadChild(kids, rest[0] as nat, ChildOffs(f.t, q, Branch));
    if q + rest in f.nodes { BelowBranch(f.nodes, q, rest); }
    assert rest[..1] == [rest[0]];
    return Down(off, 1);
  }

  /** The step at an extension: its key must lie on the way. */
  method StepExt(kids: bytes, key: bytes, rest: bytes, ghost f: Filed, ghost q: bytes) returns (st: Step)
    requires |f.m| < Max64 && q in f.t && f.t[q].node == f.nodes[q] && f.nodes[q].shape == Ext(key) && key != []
    requires rest != []
    requires Kids(ChildOffs(f.t, q, Ext(key))) <= kids
    ensures StepOk(f, q, rest, st)
  {
    if q + rest in f.nodes { BelowExt(f.nodes, q, rest); }
    if !(key <= rest) { return Absent; }
    ChildOffsFit(f, q, Ext(key));
    OffDecreases(f, q, q + key);
    var off := ReadChild(kids, 0, ChildOffs(f.t, q, Ext(key)));
    assert rest[..|key|] == key;
    return Down(off, |key|);
  }

  lemma NodeAt(f: Filed, q: bytes) returns (n: Node)
    requires q in f.t && Classified(f.nodes)
    ensures n == f.t[q].node == f.nodes[q] && Says(n) && (n.shape.Branch? || (n.shape.Ext? && n.shape.key != []))
    ensures RecordAt(f.m, f.t[q].off, n, ChildOffs(f.t, q, n.shape))
  {
    n := f.nodes[q];
    assert n.shape.Ext? && n.shape.key == [] ==> q == q + n.shape.key;
    assert Linked(f.m, f.t, q) && !IsChild(q, f.nodes[q].shape, q) && Says(n);
  }

  method StepAt(m: bytes, off: nat, rest: bytes, ghost f: Filed, ghost q: bytes) returns (st: Step)
    requires f.m == m && |m| < Max64 && Classified(f.nodes) && IsPath(rest) && q in f.t && off == f.t[q].off
    ensures StepOk(f, q, rest, st)
  {
    ghost var n := NodeAt(f, q);
    var tag, blob, kids := ReadRecord(m, off, n, ChildOffs(f.t, q, n.shape));
    if rest == [] { return Found(blob); }
    if tag == TagBranch {
      st := StepBranch(kids, rest, f, q);
    } else {
      var key := ExtKey(blob);
      st := StepExt(kids, key, rest, f, q);
    }
  }

  /** Following child offsets from the root finds exactly the stored nodes. */
  method Walk(m: bytes, root: nat, path: bytes, ghost f: Filed) returns (r: Option<bytes>)
    requires f.m == m && |m| < Max64 && root == Off(f.t, []) && Classified(f.nodes) && IsPath(path)
    ensures r == if path in f.nodes then Some(f.nodes[path].blob) else None
  {
    var off, rest := root, path;
    ghost var q: bytes := [];
    OffInFile(f, []);
    Rootless(f.nodes, path);
    while off != 0
      invariant q + rest == path && off == Off(f.t, q) && IsPath(rest)
      invariant q in f.nodes || path !in f.nodes
      decreases off
    {
      var st := StepAt(m, off, rest, f, q);
      match st {
        case Found(blob) =>
          assert q == path;
          return Some(blob);
        case Absent => return None;
        case Down(child, k) =>
          Advance(q, rest, k);
          q, rest, off := q + rest[..k], rest[k..], child;
      }
    }
    OffInFile(f, q);
    return None;
  }

  lemma Advance(q: bytes, rest: bytes, k: nat)
    requires k <= |rest|
    ensures q + rest[..k] + rest[k..] == q + rest
  {
  }

  /** A trie without its root is empty. */
  lemma {:induction false} Rootless(nodes: Nodes, q: bytes)
    requires IsTrie(nodes)
    ensures [] in nodes || q !in nodes
    decreases |q|
  {
    if q in nodes && q != [] {
      var d :| d in nodes && IsChild(d, nodes[d].shape, q);
      ChildIsLonger(nodes, d, q);
      Rootless(nodes, d);
    }
  }
}
