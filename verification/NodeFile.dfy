/** commit/commit.go and commit/file.go: the records of the node file, the writer
    that threads child offsets through its pending map, and the walk that reads a
    node back by following them. */
module NodeFile {
  import opened Bytes
  import opened Nibbles
  import opened Rlp
  import opened NodeTrie

  // ----------------------------------------------------------------- varints

  /** Base-128, least significant group first, as binary.PutUvarint writes it. */
  function Uv(v: nat): (b: bytes)
    ensures b != []
  {
    if v < 128 then [v as byte] else [(128 + v % 128) as byte] + Uv(v / 128)
  }

  function Pow128(i: nat): (p: nat)
    ensures p > 0
  {
    if i == 0 then 1 else 128 * Pow128(i - 1)
  }

  /** binary.Uvarint from byte i on: the value and its length, or None on a
      buffer too short or a value that overflows 64 bits. */
  function Uvarint(b: bytes, i: nat): Option<(nat, nat)>
    decreases |b|
  {
    if b == [] || i > 9 then None
    else if b[0] < 128 then (if i == 9 && b[0] > 1 then None else Some((b[0] as nat, 1)))
    else match Uvarint(b[1..], i + 1)
         case None => None
         case Some((v, n)) => Some((b[0] as nat - 128 + 128 * v, n + 1))
  }

  const Max64: nat := 0x1_0000_0000_0000_0000

  lemma {:induction false} GroupsGrow(i: nat, j: nat)
    requires i <= j
    ensures Pow128(i) <= Pow128(j)
    decreases j
  {
    if i < j { GroupsGrow(i, j - 1); }
  }

  /** A 64-bit value has at most ten groups, and the tenth is at most 1. */
  lemma TenGroups(v: nat, i: nat)
    requires v > 0 && v * Pow128(i) < Max64
    ensures i <= 9 && (i == 9 ==> v <= 1)
  {
    assert Pow128(3) == 128 * 128 * 128;
    assert Pow128(6) == Pow128(3) * 128 * 128 * 128;
    assert Pow128(9) == Pow128(6) * 128 * 128 * 128;
    assert Pow128(10) == 128 * Pow128(9);
    assert v * Pow128(i) >= Pow128(i);
    if i > 9 { GroupsGrow(10, i); }
    if i == 9 { assert v * Pow128(i) == v * 0x8000_0000_0000_0000; }
  }

  lemma {:induction false} UvarintUv(v: nat, i: nat, b: bytes)
    requires v * Pow128(i) < Max64 && (i > 0 ==> v > 0) && Uv(v) <= b
    ensures Uvarint(b, i) == Some((v, |Uv(v)|))
    decreases v
  {
    if v > 0 { TenGroups(v, i); }
    if v >= 128 {
      NextGroup(v, Pow128(i));
      assert Uv(v / 128) <= b[1..];
      UvarintUv(v / 128, i + 1, b[1..]);
    }
  }

  lemma NextGroup(v: nat, p: nat)
    requires v * p < Max64
    ensures v / 128 * (128 * p) < Max64
  {
    assert v / 128 * 128 <= v;
    assert v / 128 * (128 * p) == (v / 128 * 128) * p;
    assert (v / 128 * 128) * p <= v * p;
  }

  // ----------------------------------------------------------------- records

  const TagBranch: byte := 1
  const TagExt: byte := 2
  const MagicLen: nat := 8

  function Kids(cs: seq<nat>): bytes {
    if cs == [] then [] else Uv(cs[0]) + Kids(cs[1..])
  }

  /** tag, blob length, blob, child offsets; 0 is no stored child. */
  function Record(n: Node, cs: seq<nat>): (r: bytes)
    ensures |r| > 1
  {
    [if n.shape.Branch? then TagBranch else TagExt] + Uv(|n.blob|) + n.blob + Kids(cs)
  }

  ghost predicate RecordAt(m: bytes, off: nat, n: Node, cs: seq<nat>) {
    off <= |m| && Record(n, cs) <= m[off..]
  }

  lemma RecordKept(m: bytes, more: bytes, off: nat, n: Node, cs: seq<nat>)
    requires RecordAt(m, off, n, cs)
    ensures RecordAt(m + more, off, n, cs)
  {
    DropConcat(m, more, off);
  }

  lemma {:induction false} KidsSnoc(cs: seq<nat>, c: nat)
    ensures Kids(cs + [c]) == Kids(cs) + Uv(c)
  {
    if cs == [] {
      assert Kids([c]) == Uv(c) + Kids([]);
    } else {
      KidsSnoc(cs[1..], c);
      TailConcat(cs, [c]);
      ConcatAssoc(Uv(cs[0]), Kids(cs[1..]), Uv(c));
    }
  }

  // --------------------------------------------------------------- the trees

  datatype Rec = Rec(off: nat, node: Node)

  /** The written nodes of one trie. */
  type Tree = map<bytes, Rec>

  ghost function Off(t: Tree, c: bytes): nat {
    if c in t then t[c].off else 0
  }

  /** The child offsets the record of a node at p must hold. */
  ghost function ChildOffs(t: Tree, p: bytes, shape: Shape): (cs: seq<nat>)
    ensures shape.Branch? ==> |cs| == 16 && forall i :: 0 <= i < 16 ==> cs[i] == Off(t, p + [i as byte])
    ensures shape.Ext? ==> cs == [Off(t, p + shape.key)]
  {
    match shape
    case Branch => seq(16, i requires 0 <= i < 16 => Off(t, p + [i as byte]))
    case Ext(key) => [Off(t, p + key)]
    case _ => []
  }

  /** The record of p is in the file and points back at its children. */
  ghost predicate Linked(m: bytes, t: Tree, p: bytes)
    requires p in t
  {
    && MagicLen <= t[p].off
    && RecordAt(m, t[p].off, t[p].node, ChildOffs(t, p, t[p].node.shape))
    && (forall c :: c in t && IsChild(p, t[p].node.shape, c) ==> t[c].off < t[p].off)
  }

  /** A trie being written: nodes is all of it, t what has reached the file m,
      children first, and pending what still waits for its parent. */
  datatype State = State(nodes: Nodes, t: Tree, m: bytes, pending: map<bytes, nat>)

  ghost predicate Waits(t: Tree, q: bytes) {
    q in t && q != [] && !ParentIn(t, q)
  }

  ghost predicate ParentIn(t: Tree, q: bytes) {
    exists p :: p in t && IsChild(p, t[p].node.shape, q)
  }

  ghost predicate PendingIs(t: Tree, pending: map<bytes, nat>) {
    forall q {:trigger q in pending} :: if Waits(t, q) then q in pending && pending[q] == t[q].off else q !in pending
  }

  ghost predicate AllLinked(m: bytes, t: Tree) {
    forall p :: p in t ==> Linked(m, t, p)
  }

  ghost predicate InOrder(nodes: Nodes, t: Tree) {
    && (forall p :: p in t ==> p in nodes && nodes[p] == t[p].node)
    && (forall p, c {:trigger IsChild(p, t[p].node.shape, c)} ::
          p in t && c in nodes && IsChild(p, t[p].node.shape, c) ==> c in t)
  }

  ghost predicate StateInv(s: State) {
    IsTrie(s.nodes) && InOrder(s.nodes, s.t) && AllLinked(s.m, s.t) && PendingIs(s.t, s.pending)
  }

  type Sound = s: State | StateInv(s)
    ghost witness State(map[], map[], [], map[])

  /** A complete trie in a file. */
  datatype Stored = Stored(nodes: Nodes, t: Tree, m: bytes)

  type Filed = f: Stored | IsTrie(f.nodes) && f.t.Keys == f.nodes.Keys && InOrder(f.nodes, f.t) && AllLinked(f.m, f.t)
    ghost witness Stored(map[], map[], [])

  // -------------------------------------------------------------------- emit

  /** path may be emitted next: it is new, and its stored children are written. */
  ghost predicate Ready(s: Sound, path: bytes, n: Node) {
    && path in s.nodes && s.nodes[path] == n && path !in s.t
    && forall c {:trigger IsChild(path, n.shape, c)} :: c in s.nodes && IsChild(path, n.shape, c) ==> c in s.t
  }

  /** Nothing written before path is its parent. */
  lemma ReadyIsNew(s: Sound, path: bytes, n: Node)
    requires Ready(s, path, n)
    ensures !ParentIn(s.t, path) && !IsChild(path, n.shape, path) && IsPath(path)
  {
  }

  /** A child that was written is still pending: only its parent takes it. */
  lemma PendingIsOff(s: Sound, path: bytes, n: Node, c: bytes)
    requires Ready(s, path, n) && IsChild(path, n.shape, c)
    ensures (if c in s.pending then s.pending[c] else 0) == Off(s.t, c)
  {
    if c in s.t {
      ChildIsLonger(s.nodes, path, c);
      if p :| p in s.t && IsChild(p, s.t[p].node.shape, c) { UniqueParent(s.nodes, p, path, c); }
    }
    assert c in s.pending || c !in s.pending;
  }

  /** pending once the children of path are deleted from it. */
  ghost predicate Taken(pending: map<bytes, nat>, path: bytes, shape: Shape, rest: map<bytes, nat>) {
    forall q {:trigger q in rest} ::
      if q in pending && !IsChild(path, shape, q) then q in rest && rest[q] == pending[q] else q !in rest
  }

  lemma EmitPending(t: Tree, t': Tree, pending: map<bytes, nat>, path: bytes, r: Rec, rest: map<bytes, nat>,
                    pending': map<bytes, nat>)
    requires PendingIs(t, pending) && Taken(pending, path, r.node.shape, rest)
    requires path !in t && !ParentIn(t, path) && !IsChild(path, r.node.shape, path)
    requires t' == t[path := r] && pending' == if path == [] then rest else rest[path := r.off]
    ensures PendingIs(t', pending')
  {
    forall q {:trigger q in pending'}
      ensures if Waits(t', q) then q in pending' && pending'[q] == t'[q].off else q !in pending'
    {
      ParentMore(t, t', path, r, q);
      assert q in pending <==> Waits(t, q);
      assert q in rest <==> q in pending && !IsChild(path, r.node.shape, q);
    }
  }

  lemma ParentMore(t: Tree, t': Tree, path: bytes, r: Rec, q: bytes)
    requires path !in t && t' == t[path := r]
    ensures ParentIn(t', q) <==> ParentIn(t, q) || IsChild(path, r.node.shape, q)
  {
    if p :| p in t && IsChild(p, t[p].node.shape, q) { assert IsChild(p, t'[p].node.shape, q); }
    if IsChild(path, r.node.shape, q) { assert IsChild(path, t'[path].node.shape, q); }
  }

  lemma ChildOffsKept(t: Tree, t': Tree, p: bytes, shape: Shape)
    requires IsPath(p) && forall c :: IsChild(p, shape, c) ==> Off(t, c) == Off(t', c)
    ensures ChildOffs(t, p, shape) == ChildOffs(t', p, shape)
  {
    var a, b := ChildOffs(t, p, shape), ChildOffs(t', p, shape);
    if shape.Branch? {
      forall i | 0 <= i < 16 ensures a[i] == b[i] { assert IsChild(p, shape, p + [i as byte]); }
    } else if shape.Ext? {
      assert IsChild(p, shape, p + shape.key);
    }
  }

  /** Writing path leaves the records before it linked: it is nobody's child. */
  lemma EmitLinks(m: bytes, more: bytes, t: Tree, t': Tree, path: bytes, r: Rec, p: bytes)
    requires p in t && Linked(m, t, p) && IsPath(p) && !IsChild(p, t[p].node.shape, path) && t' == t[path := r]
    requires path !in t
    ensures Linked(m + more, t', p)
  {
    ChildOffsKept(t, t', p, t[p].node.shape);
    RecordKept(m, more, t[p].off, t[p].node, ChildOffs(t, p, t[p].node.shape));
  }

  lemma EmitLinksNew(m: bytes, t: Tree, t': Tree, path: bytes, n: Node)
    requires AllLinked(m, t) && MagicLen <= |m| && IsPath(path) && !IsChild(path, n.shape, path)
    requires t' == t[path := Rec(|m|, n)] && path !in t
    ensures Linked(m + Record(n, ChildOffs(t, path, n.shape)), t', path)
  {
    var cs := ChildOffs(t, path, n.shape);
    ChildOffsKept(t, t', path, n.shape);
    assert (m + Record(n, cs))[|m|..] == Record(n, cs);
    forall c | c in t' && IsChild(path, n.shape, c) ensures t'[c].off < |m| {
      assert Linked(m, t, c);
    }
  }

  lemma EmitAllLinked(s: Sound, path: bytes, n: Node)
    requires Ready(s, path, n) && MagicLen <= |s.m|
    ensures AllLinked(s.m + Record(n, ChildOffs(s.t, path, n.shape)), s.t[path := Rec(|s.m|, n)])
  {
    var more, t' := Record(n, ChildOffs(s.t, path, n.shape)), s.t[path := Rec(|s.m|, n)];
    ReadyIsNew(s, path, n);
    EmitLinksNew(s.m, s.t, t', path, n);
    forall p | p in s.t ensures Linked(s.m + more, t', p) {
      assert p in s.nodes && !IsChild(p, s.t[p].node.shape, path) && Linked(s.m, s.t, p);
      EmitLinks(s.m, more, s.t, t', path, t'[path], p);
    }
  }

  lemma EmitInOrder(s: Sound, path: bytes, n: Node, off: nat)
    requires Ready(s, path, n)
    ensures InOrder(s.nodes, s.t[path := Rec(off, n)])
  {
    InOrderMore(s.nodes, s.t, path, Rec(off, n));
  }

  lemma InOrderMore(nodes: Nodes, t: Tree, path: bytes, r: Rec)
    requires InOrder(nodes, t) && path in nodes && nodes[path] == r.node
    requires forall c {:trigger IsChild(path, r.node.shape, c)} :: c in nodes && IsChild(path, r.node.shape, c) ==>
               c in t
    ensures InOrder(nodes, t[path := r])
  {
    var t' := t[path := r];
    forall p, c {:trigger IsChild(p, t'[p].node.shape, c)} | p in t' && c in nodes && IsChild(p, t'[p].node.shape, c)
      ensures c in t'
    {
      if p == path { assert IsChild(path, r.node.shape, c); } else { assert IsChild(p, t[p].node.shape, c); }
    }
  }

  /** The state after path's record was appended. */
  lemma EmitSound(s: Sound, path: bytes, n: Node, rest: map<bytes, nat>) returns (s': Sound)
    requires Ready(s, path, n) && Taken(s.pending, path, n.shape, rest) && MagicLen <= |s.m|
    ensures s'.nodes == s.nodes && s'.t == s.t[path := Rec(|s.m|, n)]
    ensures s'.m == s.m + Record(n, ChildOffs(s.t, path, n.shape))
    ensures s'.pending == if path == [] then rest else rest[path := |s.m|]
  {
    var r := Rec(|s.m|, n);
    var m', t' := s.m + Record(n, ChildOffs(s.t, path, n.shape)), s.t[path := r];
    var pending' := if path == [] then rest else rest[path := r.off];
    ReadyIsNew(s, path, n);
    EmitPending(s.t, t', s.pending, path, r, rest, pending');
    EmitAllLinked(s, path, n);
    EmitInOrder(s, path, n, r.off);
    s' := Assemble(s, t', m', pending');
  }

  lemma Assemble(s: Sound, t: Tree, m: bytes, pending: map<bytes, nat>) returns (s': Sound)
    requires InOrder(s.nodes, t) && AllLinked(m, t) && PendingIs(t, pending)
    ensures s' == State(s.nodes, t, m, pending)
  {
    s' := State(s.nodes, t, m, pending);
  }

  lemma AllDone(nodes: Nodes, t: Tree)
    requires IsTrie(nodes) && InOrder(nodes, t) && [] in t
    ensures t.Keys == nodes.Keys
  {
    forall p, c {:trigger IsChild(p, nodes[p].shape, c)} |
      p in t.Keys && p in nodes && c in nodes && IsChild(p, nodes[p].shape, c)
      ensures c in t.Keys
    {
      assert IsChild(p, t[p].node.shape, c);
    }
    forall q | q in nodes ensures q in t.Keys { RootLast(nodes, t.Keys, q); }
  }

  lemma NotPending(nodes: Nodes, t: Tree, pending: map<bytes, nat>, q: bytes)
    requires IsTrie(nodes) && InOrder(nodes, t) && PendingIs(t, pending) && t.Keys == nodes.Keys
    ensures q !in pending
  {
    if q in nodes && q != [] {
      var p :| p in nodes && IsChild(p, nodes[p].shape, q);
      assert IsChild(p, t[p].node.shape, q);
    }
  }

  /** Once the root is written nothing is pending and the trie is complete. */
  lemma RootEnds(s: Sound) returns (f: Filed)
    requires [] in s.t
    ensures s.pending == map[] && f == Stored(s.nodes, s.t, s.m)
  {
    AllDone(s.nodes, s.t);
    forall q ensures q !in s.pending { NotPending(s.nodes, s.t, s.pending, q); }
    f := Stored(s.nodes, s.t, s.m);
  }

  /** The children of a branch leave pending one by one. */
  method TakeBranch(pending: map<bytes, nat>, path: bytes, ghost n: Node, ghost s: Sound)
    returns (children: seq<nat>, rest: map<bytes, nat>)
    requires s.pending == pending && Ready(s, path, n) && n.shape.Branch?
    ensures children == ChildOffs(s.t, path, n.shape) && Taken(pending, path, n.shape, rest)
  {
    children, rest := [], pending;
    ghost var cs := ChildOffs(s.t, path, n.shape);
    for i := 0 to 16
      invariant children == cs[..i] && TakenBelow(pending, path, i, rest)
    {
      var off;
      off, rest := TakeOne(pending, path, i, rest, n, s);
      DropDrop(cs, i);
      children := children + [off];
    }
    assert cs[..16] == cs;
    TakenAll(pending, path, n.shape, rest);
  }

  method TakeOne(pending: map<bytes, nat>, path: bytes, i: nat, rest: map<bytes, nat>, ghost n: Node, ghost s: Sound)
    returns (off: nat, rest': map<bytes, nat>)
    requires s.pending == pending && Ready(s, path, n) && n.shape.Branch? && i < 16
    requires TakenBelow(pending, path, i, rest)
    ensures off == Off(s.t, path + [i as byte]) && TakenBelow(pending, path, i + 1, rest')
  {
    var child := path + [i as byte];
    PendingIsOff(s, path, n, child);
    TakeNext(pending, path, i, rest);
    assert child in rest <==> child in pending;
    off := if child in rest then rest[child] else 0;
    rest' := rest - {child};
  }

  lemma TakenAll(pending: map<bytes, nat>, path: bytes, shape: Shape, rest: map<bytes, nat>)
    requires shape.Branch? && TakenBelow(pending, path, 16, rest)
    ensures Taken(pending, path, shape, rest)
  {
    forall q {:trigger q in rest}
      ensures if q in pending && !IsChild(path, shape, q) then q in rest && rest[q] == pending[q] else q !in rest
    {
      assert IsChild(path, shape, q) <==> ChildBelow(path, 16, q);
    }
  }

  ghost predicate TakenBelow(pending: map<bytes, nat>, path: bytes, i: nat, rest: map<bytes, nat>) {
    forall q {:trigger q in rest} ::
      if q in pending && !ChildBelow(path, i, q) then q in rest && rest[q] == pending[q] else q !in rest
  }

  predicate ChildBelow(p: bytes, i: nat, c: bytes) { p <= c && |c| == |p| + 1 && c[|p|] as int < i }

  lemma TakeNext(pending: map<bytes, nat>, path: bytes, i: nat, rest: map<bytes, nat>)
    requires TakenBelow(pending, path, i, rest) && i < 16
    ensures TakenBelow(pending, path, i + 1, rest - {path + [i as byte]})
  {
    var rest' := rest - {path + [i as byte]};
    forall q {:trigger q in rest'}
      ensures if q in pending && !ChildBelow(path, i + 1, q) then q in rest' && rest'[q] == pending[q] else q !in rest'
    {
      assert q in rest <==> q in pending && !ChildBelow(path, i, q);
      assert ChildBelow(path, i + 1, q) <==> ChildBelow(path, i, q) || q == path + [i as byte];
    }
  }

  method TakeExt(pending: map<bytes, nat>, path: bytes, key: bytes, ghost n: Node, ghost s: Sound)
    returns (children: seq<nat>, rest: map<bytes, nat>)
    requires s.pending == pending && Ready(s, path, n) && n.shape == Ext(key)
    ensures children == ChildOffs(s.t, path, n.shape) && Taken(pending, path, n.shape, rest)
  {
    var child := path + key;
    PendingIsOff(s, path, n, child);
    children := [if child in pending then pending[child] else 0];
    rest := pending - {child};
  }

  method PutVarints(m: bytes, cs: seq<nat>) returns (m': bytes)
    ensures m' == m + Kids(cs)
  {
    m' := m;
    for i := 0 to |cs|
      invariant m' == m + Kids(cs[..i])
    {
      DropDrop(cs, i);
      KidsSnoc(cs[..i], cs[i]);
      ConcatAssoc(m, Kids(cs[..i]), Uv(cs[i]));
      m' := m' + Uv(cs[i]);
    }
    assert cs[..|cs|] == cs;
  }

  method PutRecord(m: bytes, n: Node, cs: seq<nat>) returns (m': bytes)
    ensures m' == m + Record(n, cs)
  {
    var tag := [if n.shape.Branch? then TagBranch else TagExt];
    Concat5(m, tag, Uv(|n.blob|), n.blob, Kids(cs));
    m' := PutVarints(m + tag + Uv(|n.blob|) + n.blob, cs);
  }

  lemma Concat5(a: bytes, b: bytes, c: bytes, d: bytes, e: bytes)
    ensures a + b + c + d + e == a + (b + c + d + e)
  {
  }

  /** The part of emit after the children are known. */
  method Append(m: bytes, path: bytes, n: Node, children: seq<nat>, rest: map<bytes, nat>, ghost s: Sound)
    returns (m': bytes, pending: map<bytes, nat>, ghost s': Sound)
    requires s.m == m && MagicLen <= |m| && Ready(s, path, n)
    requires children == ChildOffs(s.t, path, n.shape) && Taken(s.pending, path, n.shape, rest)
    ensures s'.nodes == s.nodes && s'.m == m' && s'.pending == pending && m <= m'
    ensures s'.t == s.t[path := Rec(|m|, n)]
  {
    s' := EmitSound(s, path, n, rest);
    m' := PutRecord(m, n, children);
    pending := if path == [] then rest else rest[path := |m|];
  }

  /** emit on values: a leaf is skipped, an internal node is appended with the
      offsets of its children and waits for its parent. */
  method EmitNode(m: bytes, pending: map<bytes, nat>, path: bytes, n: Node, ghost s: Sound)
    returns (m': bytes, pending': map<bytes, nat>, ghost s': Sound)
    requires s.m == m && s.pending == pending && MagicLen <= |m|
    requires !n.shape.Malformed? && (!n.shape.Leaf? ==> Ready(s, path, n))
    ensures s'.nodes == s.nodes && s'.m == m' && s'.pending == pending' && m <= m'
    ensures if n.shape.Leaf? then s' == s else s'.t == s.t[path := Rec(|m|, n)]
  {
    var children, rest;
    match n.shape {
      case Leaf => return m, pending, s;
      case Branch => children, rest := TakeBranch(pending, path, n, s);
      case Ext(key) => children, rest := TakeExt(pending, path, key, n, s);
    }
    m', pending', s' := Append(m, path, n, children, rest, s);
  }
}
