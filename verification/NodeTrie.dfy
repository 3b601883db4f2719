/** The internal nodes of one Merkle Patricia trie (Appendix D of the Ethereum
    Yellow Paper) as a map from nibble path to RLP blob, and the reasoning a walk
    from the root rests on. */
module NodeTrie {
  import opened Bytes
  import opened Nibbles
  import opened Rlp

  datatype Shape = Branch | Ext(key: bytes) | Leaf | Malformed

  /** What emit makes of a blob; the source panics on a malformed one. */
  function ShapeOf(blob: bytes): (s: Shape)
    ensures s.Ext? ==> IsPath(s.key)
  {
    match SplitList(blob)
    case None => Malformed
    case Some(item) =>
      match CountValues(item.content)
      case 17 => Branch
      case 2 =>
        (match SplitString(item.content)
         case None => Malformed
         case Some(key) =>
           if key.content == [] then Malformed
           else if LeafKey(key.content) then Leaf
           else Ext(Hex(key.content)))
      case _ => Malformed
  }

  /** An emitted node: its RLP and what that says it is. */
  datatype Node = Node(blob: bytes, shape: Shape)

  type Nodes = map<bytes, Node>

  /** c is where a node of this shape at p has a child. */
  predicate IsChild(p: bytes, shape: Shape, c: bytes) {
    match shape
    case Branch => p <= c && |c| == |p| + 1 && c[|p|] < 16
    case Ext(key) => c == p + key
    case _ => false
  }

  ghost predicate HasParent(nodes: Nodes, q: bytes) {
    exists p :: p in nodes && IsChild(p, nodes[p].shape, q)
  }

  /** The internal nodes of a trie: no extension is empty, every node but the
      root hangs off another one, and nothing lies inside an extension's key. */
  ghost predicate IsTrie(nodes: Nodes) {
    && (forall p {:trigger nodes[p]} :: p in nodes ==>
          IsPath(p) && (nodes[p].shape.Branch? || nodes[p].shape.Ext?) && !IsChild(p, nodes[p].shape, p))
    && (forall q {:trigger q in nodes} :: q in nodes && q != [] ==> HasParent(nodes, q))
    && (forall p, q {:trigger nodes[p], q in nodes} :: p in nodes && q in nodes && p < q && nodes[p].shape.Ext? ==>
          p + nodes[p].shape.key <= q)
  }

  lemma PrefixesNest(a: bytes, b: bytes, c: bytes)
    requires a <= c && b <= c
    ensures a == b || a < b || b < a
  {
    assert forall i :: 0 <= i < |a| ==> a[i] == c[i];
    assert forall i :: 0 <= i < |b| ==> b[i] == c[i];
  }

  lemma ChildIsLonger(nodes: Nodes, p: bytes, c: bytes)
    requires IsTrie(nodes) && p in nodes && IsChild(p, nodes[p].shape, c)
    ensures p < c
  {
    assert nodes[p].shape.Ext? && nodes[p].shape.key == [] ==> c == p;
  }

  /** Nothing is stored between a node and its child. */
  lemma NothingInside(nodes: Nodes, p: bytes, c: bytes, q: bytes)
    requires IsTrie(nodes) && p in nodes && IsChild(p, nodes[p].shape, c) && q in nodes && p < q && q <= c
    ensures q == c
  {
    if nodes[p].shape.Ext? { assert c <= q; }
  }

  lemma UniqueParent(nodes: Nodes, p: bytes, d: bytes, c: bytes)
    requires IsTrie(nodes) && p in nodes && d in nodes && IsChild(p, nodes[p].shape, c) && IsChild(d, nodes[d].shape, c)
    ensures p == d
  {
    ChildIsLonger(nodes, p, c);
    ChildIsLonger(nodes, d, c);
    PrefixesNest(p, d, c);
    if p < d { NothingInside(nodes, p, c, d); }
    if d < p { NothingInside(nodes, d, c, p); }
  }

  /** The way from a node down to another one runs through a stored child. */
  lemma {:induction false} ChildOnWay(nodes: Nodes, p: bytes, q: bytes) returns (c: bytes)
    requires IsTrie(nodes) && p in nodes && q in nodes && p < q
    ensures c in nodes && IsChild(p, nodes[p].shape, c) && c <= q
    decreases |q|
  {
    var d :| d in nodes && IsChild(d, nodes[d].shape, q);
    ChildIsLonger(nodes, d, q);
    PrefixesNest(p, d, q);
    if p < d {
      c := ChildOnWay(nodes, p, d);
    } else {
      if d < p { NothingInside(nodes, d, q, p); }
      c := q;
    }
  }

  lemma OneLonger(p: bytes, r: bytes, c: bytes)
    requires r != [] && c <= p + r && |c| == |p| + 1
    ensures c == p + [r[0]]
  {
  }

  /** Below a branch everything hangs off its stored children. */
  lemma BelowBranch(nodes: Nodes, p: bytes, r: bytes)
    requires IsTrie(nodes) && p in nodes && nodes[p].shape.Branch? && r != [] && p + r in nodes
    ensures p + [r[0]] in nodes
  {
    var c := ChildOnWay(nodes, p, p + r);
    OneLonger(p, r, c);
  }

  /** Below an extension only paths that start with its key are stored. */
  lemma BelowExt(nodes: Nodes, p: bytes, r: bytes)
    requires IsTrie(nodes) && p in nodes && nodes[p].shape.Ext? && r != [] && p + r in nodes
    ensures nodes[p].shape.key <= r && p + nodes[p].shape.key in nodes
  {
    var c := ChildOnWay(nodes, p, p + r);
    assert c == p + nodes[p].shape.key;
    assert (p + r)[|p|..] == r;
  }

  /** A set of done nodes that holds the root and, with a node, its children
      holds everything. */
  lemma {:induction false} RootLast(nodes: Nodes, done: set<bytes>, q: bytes)
    requires IsTrie(nodes) && [] in done && q in nodes
    requires forall p, c {:trigger IsChild(p, nodes[p].shape, c)} ::
               p in done && p in nodes && c in nodes && IsChild(p, nodes[p].shape, c) ==> c in done
    ensures q in done
    decreases |q|
  {
    if q != [] {
      var d :| d in nodes && IsChild(d, nodes[d].shape, q);
      ChildIsLonger(nodes, d, q);
      RootLast(nodes, done, d);
    }
  }
}
