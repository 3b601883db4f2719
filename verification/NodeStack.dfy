/** What a StackTrie emits for a whole trie is in the order a roll relies on: the
    nodes big enough to be hashed, children before parents, left to right. */
module NodeStack {
  import opened Bytes
  import opened Nibbles
  import opened NodeTrie
  import opened NodeWalk
  import opened NodeRoll

  /** A Merkle Patricia trie; each node with its RLP. */
  datatype Tree =
    | Nil
    | Tip(blob: bytes)
    | Path(blob: bytes, key: bytes, kid: Tree)
    | Fork(blob: bytes, kids: seq<Tree>)
  {
    /** A node shorter than 32 bytes is embedded in its parent instead. */
    predicate Hashed() { !Nil? && |blob| >= 32 }

    function Self(): Node
      requires !Nil?
    {
      Node(blob, match this case Tip(_) => Leaf case Path(_, key, _) => Ext(key) case Fork(_, _) => Branch)
    }

    predicate Good() {
      match this
      case Nil => true
      case Tip(_) => true
      case Path(_, key, kid) => key != [] && IsPath(key) && kid.Good() && (kid.Hashed() ==> Hashed())
      case Fork(_, kids) => |kids| == 16 && forall i :: 0 <= i < 16 ==>
        kids[i].Good() && (kids[i].Hashed() ==> Hashed())
    }

    /** Every node's RLP has the shape of the node. */
    ghost predicate Labelled() {
      match this
      case Nil => true
      case Tip(_) => Says(Self())
      case Path(_, _, kid) => Says(Self()) && kid.Labelled()
      case Fork(_, kids) => Says(Self()) && forall i :: 0 <= i < |kids| ==> kids[i].Labelled()
    }

    /** The callbacks below this node, then its own. */
    function Emit(path: bytes): seq<Emission>
      decreases this, 1
    {
      if Hashed() then Below(path) + [Emission(path, Self())] else []
    }

    function Below(path: bytes): seq<Emission>
      requires !Nil?
      decreases this, 0
    {
      match this
      case Tip(_) => []
      case Path(_, key, kid) => kid.Emit(path + key)
      case Fork(_, kids) => Some(path, if |kids| < 16 then |kids| else 16)
    }

    function Some(path: bytes, n: nat): seq<Emission>
      requires Fork? && n <= |kids| && n <= 16
      decreases this, 0, n
    {
      if n == 0 then [] else Some(path, n - 1) + kids[n - 1].Emit(path + [(n - 1) as byte])
    }
  }

  /** A list of callbacks for disjoint subtries whose roots are tops. */
  ghost predicate Forest(es: seq<Emission>, tops: set<bytes>) {
    && (forall i {:trigger Kept(es[i])} :: 0 <= i < |es| && Kept(es[i]) ==>
          Sits(es[i], tops) && (es[i].path in tops || ParentAfter(es, i)))
    && (forall i, j {:trigger Kept(es[i]), Kept(es[j])} ::
          0 <= i < |es| && 0 <= j < |es| && i != j && Kept(es[i]) && Kept(es[j]) ==>
          Unrelated(es[i], es[j], i < j))
  }

  ghost predicate Sits(e: Emission, tops: set<bytes>) {
    && IsPath(e.path) && (e.node.shape.Branch? || (e.node.shape.Ext? && e.node.shape.key != []))
    && exists t :: t in tops && t <= e.path
  }

  ghost predicate ParentAfter(es: seq<Emission>, i: nat)
    requires i < |es|
  {
    exists j {:trigger Kept(es[j])} :: i < j < |es| && Kept(es[j]) && IsChild(es[j].path, es[j].node.shape, es[i].path)
  }

  /** Two emitted nodes differ, the first has not the later one for a child, and
      neither lies inside the other's key. */
  ghost predicate Unrelated(a: Emission, b: Emission, first: bool) {
    && a.path != b.path && (first ==> !IsChild(a.path, a.node.shape, b.path))
    && (a.node.shape.Ext? && a.path < b.path ==> a.path + a.node.shape.key <= b.path)
  }

  ghost predicate Incomparable(a: set<bytes>, b: set<bytes>) {
    forall s, t {:trigger s in a, t in b} :: s in a && t in b ==> !(s <= t) && !(t <= s)
  }

  lemma Across(a: Emission, b: Emission, as': set<bytes>, bs: set<bytes>, first: bool)
    requires Sits(a, as') && Sits(b, bs) && Incomparable(as', bs)
    ensures Unrelated(a, b, first)
  {
    var s :| s in as' && s <= a.path;
    var t :| t in bs && t <= b.path;
    if a.path <= b.path { PrefixesNest(s, t, b.path); }
  }

  lemma Join(xs: seq<Emission>, as': set<bytes>, ys: seq<Emission>, bs: set<bytes>)
    requires Forest(xs, as') && Forest(ys, bs) && Incomparable(as', bs)
    ensures Forest(xs + ys, as' + bs)
  {
    var es, tops := xs + ys, as' + bs;
    forall i {:trigger Kept(es[i])} | 0 <= i < |es| && Kept(es[i])
      ensures Sits(es[i], tops) && (es[i].path in tops || ParentAfter(es, i))
    {
      if i < |xs| {
        assert Kept(xs[i]);
        if es[i].path !in as' { JoinLeft(xs, ys, i); }
      } else {
        assert Kept(ys[i - |xs|]);
        if es[i].path !in bs { JoinRight(xs, ys, i - |xs|); }
      }
    }
    forall i, j {:trigger Kept(es[i]), Kept(es[j])} |
      0 <= i < |es| && 0 <= j < |es| && i != j && Kept(es[i]) && Kept(es[j])
      ensures Unrelated(es[i], es[j], i < j)
    {
      assert i < |xs| ==> Kept(xs[i]);
      assert j < |xs| ==> Kept(xs[j]);
      assert i >= |xs| ==> Kept(ys[i - |xs|]);
      assert j >= |xs| ==> Kept(ys[j - |xs|]);
      if i < |xs| <= j { Across(es[i], es[j], as', bs, true); }
      if j < |xs| <= i {
        forall s, t {:trigger s in bs, t in as'} | s in bs && t in as'
          ensures !(s <= t) && !(t <= s)
        {
          assert t in as' && s in bs;
        }
        Across(es[i], es[j], bs, as', false);
      }
    }
  }

  lemma JoinLeft(xs: seq<Emission>, ys: seq<Emission>, i: nat)
    requires i < |xs| && ParentAfter(xs, i)
    ensures ParentAfter(xs + ys, i)
  {
    var j :| i < j < |xs| && Kept(xs[j]) && IsChild(xs[j].path, xs[j].node.shape, xs[i].path);
    assert Kept((xs + ys)[j]);
  }

  lemma JoinRight(xs: seq<Emission>, ys: seq<Emission>, i: nat)
    requires i < |ys| && ParentAfter(ys, i)
    ensures ParentAfter(xs + ys, |xs| + i)
  {
    var j :| i < j < |ys| && Kept(ys[j]) && IsChild(ys[j].path, ys[j].node.shape, ys[i].path);
    assert Kept((xs + ys)[|xs| + j]);
  }

  /** A parent emitted after the subtries of its children roots them. */
  lemma AddRoot(es: seq<Emission>, tops: set<bytes>, e: Emission)
    requires Forest(es, tops) && Kept(e) && IsPath(e.path)
    requires (e.node.shape.Branch? || (e.node.shape.Ext? && e.node.shape.key != []))
    requires forall t :: t in tops ==> IsChild(e.path, e.node.shape, t)
    ensures Forest(es + [e], {e.path})
  {
    var all, n := es + [e], |es|;
    forall i {:trigger Kept(all[i])} | 0 <= i < |all| && Kept(all[i])
      ensures Sits(all[i], {e.path}) && (all[i].path in {e.path} || ParentAfter(all, i))
    {
      if i < n {
        assert Kept(es[i]);
        RootAbove(es[i], tops, e);
        if es[i].path in tops { assert Kept(all[n]); } else { JoinLeft(es, [e], i); }
      }
    }
    forall i, j {:trigger Kept(all[i]), Kept(all[j])} |
      0 <= i < |all| && 0 <= j < |all| && i != j && Kept(all[i]) && Kept(all[j])
      ensures Unrelated(all[i], all[j], i < j)
    {
      assert i < n ==> Kept(es[i]);
      assert j < n ==> Kept(es[j]);
      if i == n { RootAbove(all[j], tops, e); }
      if j == n { RootAbove(all[i], tops, e); }
    }
  }

  lemma RootAbove(a: Emission, tops: set<bytes>, e: Emission)
    requires Sits(a, tops) && (e.node.shape.Branch? || (e.node.shape.Ext? && e.node.shape.key != []))
    requires forall t :: t in tops ==> IsChild(e.path, e.node.shape, t)
    ensures e.path < a.path && Sits(a, {e.path}) && Unrelated(e, a, false) && Unrelated(a, e, true)
  {
    var t :| t in tops && t <= a.path;
    assert e.path < t && e.path <= a.path;
    assert e.path in {e.path};
  }

  function Tops(path: bytes, n: nat): (ts: set<bytes>)
    requires n <= 16
    ensures forall t :: t in ts <==> path <= t && |t| == |path| + 1 && t[|path|] as int < n
  {
    if n == 0 then {} else
    assert forall t: bytes :: path <= t && |t| == |path| + 1 ==> t == path + [t[|path|]];
    Tops(path, n - 1) + {path + [(n - 1) as byte]}
  }

  lemma {:induction false} EmitForest(t: Tree, path: bytes)
    requires t.Good() && IsPath(path)
    ensures Forest(t.Emit(path), {path})
    decreases t, 1
  {
    if t.Hashed() { RootForest(t, path); }
  }

  lemma {:induction false} RootForest(t: Tree, path: bytes)
    requires t.Good() && !t.Nil? && IsPath(path)
    ensures Forest(t.Below(path) + [Emission(path, t.Self())], {path})
    decreases t, 0
  {
    var e := Emission(path, t.Self());
    match t {
      case Tip(_) =>
        assert !Kept(e);
      case Path(_, key, kid) =>
        EmitForest(kid, path + key);
        AddRoot(kid.Emit(path + key), {path + key}, e);
      case Fork(_, kids) =>
        KidsForest(t, path, 16);
        AddRoot(t.Some(path, 16), Tops(path, 16), e);
    }
  }

  lemma {:induction false} KidsForest(t: Tree, path: bytes, n: nat)
    requires t.Good() && t.Fork? && IsPath(path) && n <= 16
    ensures Forest(t.Some(path, n), Tops(path, n))
    decreases t, 0, n
  {
    if n > 0 {
      KidsForest(t, path, n - 1);
      var top := path + [(n - 1) as byte];
      EmitForest(t.kids[n - 1], top);
      Join(t.Some(path, n - 1), Tops(path, n - 1), t.kids[n - 1].Emit(top), {top});
    }
  }

  /** The internal nodes among some callbacks, by path. */
  function NodesIn(es: seq<Emission>): Nodes {
    if es == [] then map[] else
    var e := es[|es| - 1];
    if Kept(e) then NodesIn(es[..|es| - 1])[e.path := e.node] else NodesIn(es[..|es| - 1])
  }

  ghost predicate Distinct(es: seq<Emission>) {
    forall i, j {:trigger Kept(es[i]), Kept(es[j])} :: 0 <= i < j < |es| && Kept(es[i]) && Kept(es[j]) ==>
      es[i].path != es[j].path
  }

  lemma {:induction false} NodesInIs(es: seq<Emission>)
    requires Distinct(es)
    ensures forall i {:trigger Kept(es[i])} :: 0 <= i < |es| && Kept(es[i]) ==>
              es[i].path in NodesIn(es) && NodesIn(es)[es[i].path] == es[i].node
    ensures forall p {:trigger p in NodesIn(es)} :: p in NodesIn(es) ==> Among(es, |es|, p)
  {
    if es != [] {
      var n, rest := |es| - 1, es[..|es| - 1];
      assert forall i :: 0 <= i < n ==> rest[i] == es[i];
      assert Distinct(rest) by {
        forall i, j {:trigger Kept(rest[i]), Kept(rest[j])} | 0 <= i < j < n && Kept(rest[i]) && Kept(rest[j])
          ensures rest[i].path != rest[j].path
        {
          assert Kept(es[i]) && Kept(es[j]);
        }
      }
      NodesInIs(rest);
      forall i {:trigger Kept(es[i])} | 0 <= i < |es| && Kept(es[i])
        ensures es[i].path in NodesIn(es) && NodesIn(es)[es[i].path] == es[i].node
      {
        if i < n { assert Kept(rest[i]); }
      }
      forall p {:trigger p in NodesIn(es)} | p in NodesIn(es) ensures Among(es, |es|, p) {
        if p in NodesIn(rest) {
          assert Among(rest, n, p);
          var i :| 0 <= i < n && Kept(rest[i]) && rest[i].path == p;
          assert Kept(es[i]);
        } else {
          assert Kept(es[n]);
        }
      }
    }
  }

  /** Callbacks of one rooted forest are those of a trie. */
  lemma ForestEmits(es: seq<Emission>)
    requires Forest(es, {[]})
    ensures Emits(es, NodesIn(es))
  {
    NodesInIs(es);
    var nodes := NodesIn(es);
    forall p {:trigger nodes[p]} | p in nodes
      ensures IsPath(p) && (nodes[p].shape.Branch? || nodes[p].shape.Ext?) && !IsChild(p, nodes[p].shape, p)
    {
      NodeSits(es, p);
    }
    forall q {:trigger q in nodes} | q in nodes && q != [] ensures HasParent(nodes, q) { NodeHangs(es, q); }
    forall p, q {:trigger nodes[p], q in nodes} | p in nodes && q in nodes && p < q && nodes[p].shape.Ext?
      ensures p + nodes[p].shape.key <= q
    {
      NodesUnrelated(es, p, q);
    }
  }

  lemma NodeSits(es: seq<Emission>, p: bytes)
    requires Forest(es, {[]}) && p in NodesIn(es)
    ensures var shape := NodesIn(es)[p].shape; IsPath(p) && (shape.Branch? || shape.Ext?) && !IsChild(p, shape, p)
  {
    NodesInIs(es);
    var i := IndexOf(es, p);
    assert Sits(es[i], {[]});
  }

  lemma NodeHangs(es: seq<Emission>, q: bytes)
    requires Forest(es, {[]}) && q in NodesIn(es) && q != []
    ensures HasParent(NodesIn(es), q)
  {
    NodesInIs(es);
    var i := IndexOf(es, q);
    assert ParentAfter(es, i);
    var j :| i < j < |es| && Kept(es[j]) && IsChild(es[j].path, es[j].node.shape, q);
    assert IsChild(es[j].path, NodesIn(es)[es[j].path].shape, q);
  }

  lemma NodesUnrelated(es: seq<Emission>, p: bytes, q: bytes)
    requires Forest(es, {[]}) && p in NodesIn(es) && q in NodesIn(es) && p < q && NodesIn(es)[p].shape.Ext?
    ensures p + NodesIn(es)[p].shape.key <= q
  {
    NodesInIs(es);
    var i := IndexOf(es, p);
    var j := IndexOf(es, q);
    assert Unrelated(es[i], es[j], i < j);
  }

  lemma IndexOf(es: seq<Emission>, p: bytes) returns (i: nat)
    requires Among(es, |es|, p)
    ensures i < |es| && Kept(es[i]) && es[i].path == p
  {
    i :| 0 <= i < |es| && Kept(es[i]) && es[i].path == p;
  }

  /** Everything a StackTrie hands its writer: Hash emits the root whatever its
      size. */
  function Callbacks(t: Tree): seq<Emission> {
    if t.Nil? then [] else t.Below([]) + [Emission([], t.Self())]
  }

  lemma RealJoin(xs: seq<Emission>, ys: seq<Emission>)
    requires Real(xs) && Real(ys)
    ensures Real(xs + ys)
  {
  }

  lemma {:induction false} EmitReal(t: Tree, path: bytes)
    requires t.Good() && t.Labelled()
    ensures Real(t.Emit(path)) && (!t.Nil? ==> Real(t.Below(path) + [Emission(path, t.Self())]))
    decreases t, 1
  {
    match t {
      case Nil =>
      case Tip(_) => RealJoin([], [Emission(path, t.Self())]);
      case Path(_, key, kid) =>
        EmitReal(kid, path + key);
        RealJoin(kid.Emit(path + key), [Emission(path, t.Self())]);
      case Fork(_, kids) =>
        KidsReal(t, path, 16);
        RealJoin(t.Some(path, 16), [Emission(path, t.Self())]);
    }
  }

  lemma {:induction false} KidsReal(t: Tree, path: bytes, n: nat)
    requires t.Good() && t.Labelled() && t.Fork? && n <= 16
    ensures Real(t.Some(path, n))
    decreases t, 0, n
  {
    if n > 0 {
      KidsReal(t, path, n - 1);
      var top := path + [(n - 1) as byte];
      EmitReal(t.kids[n - 1], top);
      RealJoin(t.Some(path, n - 1), t.kids[n - 1].Emit(top));
    }
  }

  /** Any trie's callbacks are in the order a roll needs, with the root last. */
  lemma StackTrieEmits(t: Tree)
    requires t.Good()
    ensures Emits(Callbacks(t), NodesIn(Callbacks(t)))
    ensures t.Labelled() ==> Real(Callbacks(t))
    ensures !t.Nil? ==> RootLate(Callbacks(t), |Callbacks(t)| - 1)
  {
    var es := Callbacks(t);
    if t.Labelled() { EmitReal(t, []); }
    if !t.Nil? {
      RootForest(t, []);
      var n := |es| - 1;
      if t.Tip? {
        assert n == 0;
      } else {
        forall i {:trigger Kept(es[i])} | 0 <= i < n && Kept(es[i]) ensures es[i].path != [] {
          assert Kept(es[n]) && Unrelated(es[i], es[n], true);
        }
      }
    }
    ForestEmits(es);
  }

  // ------------------------------------------------- which nodes are emitted

  /** The subtrie a path leads to, Nil when it leads nowhere or inside a key. */
  function Descend(t: Tree, r: bytes): Tree
    decreases t
  {
    if r == [] then t else
    match t
    case Path(_, key, kid) => if key <= r then Descend(kid, r[|key|..]) else Nil
    case Fork(_, kids) => if r[0] as int < |kids| then Descend(kids[r[0]], r[1..]) else Nil
    case _ => Nil
  }

  lemma {:induction false} EmitBelow(t: Tree, path: bytes, e: Emission)
    requires t.Good() && e in t.Emit(path)
    ensures path <= e.path
    decreases t, 1
  {
    match t {
      case Nil =>
      case Tip(_) =>
      case Path(_, key, kid) => if e in kid.Emit(path + key) { EmitBelow(kid, path + key, e); }
      case Fork(_, kids) => if e in t.Some(path, 16) { var _ := WhichKid(t, path, 16, e); }
    }
  }

  lemma {:induction false} WhichKid(t: Tree, path: bytes, n: nat, e: Emission) returns (i: nat)
    requires t.Good() && t.Fork? && n <= 16 && e in t.Some(path, n)
    ensures i < n && e in t.kids[i].Emit(path + [i as byte]) && path + [i as byte] <= e.path
    decreases t, 0, n
  {
    if e in t.Some(path, n - 1) {
      i := WhichKid(t, path, n - 1, e);
    } else {
      i := n - 1;
      EmitBelow(t.kids[i], path + [i as byte], e);
    }
  }

  lemma {:induction false} FromKid(t: Tree, path: bytes, n: nat, i: nat, e: Emission)
    requires t.Fork? && i < n <= 16 && n <= |t.kids| && e in t.kids[i].Emit(path + [i as byte])
    ensures e in t.Some(path, n)
    decreases n
  {
    if i < n - 1 { FromKid(t, path, n - 1, i, e); }
  }

  /** Nothing below an embedded node is hashed. */
  lemma {:induction false} Embedded(t: Tree, r: bytes)
    requires t.Good() && !t.Hashed()
    ensures !Descend(t, r).Hashed()
    decreases t
  {
    if r != [] {
      match t {
        case Path(_, key, kid) => if key <= r { Embedded(kid, r[|key|..]); }
        case Fork(_, kids) => if r[0] < 16 { Embedded(kids[r[0]], r[1..]); }
        case _ =>
      }
    }
  }

  /** d is an internal node with this RLP and shape. */
  predicate IsNode(d: Tree, n: Node) { !d.Nil? && !d.Tip? && d.Self() == n }

  /** A node is emitted for a path exactly when the path leads to a hashed one. */
  lemma {:induction false} EmitIff(t: Tree, path: bytes, r: bytes, n: Node)
    requires t.Good() && !n.shape.Leaf?
    ensures Emission(path + r, n) in t.Emit(path) <==> IsNode(Descend(t, r), n) && Descend(t, r).Hashed()
    decreases t, 1
  {
    if t.Hashed() { BelowIff(t, path, r, n); } else { Embedded(t, r); }
  }

  lemma {:induction false} BelowIff(t: Tree, path: bytes, r: bytes, n: Node)
    requires t.Good() && !t.Nil? && !n.shape.Leaf?
    ensures Emission(path + r, n) in t.Below(path) + [Emission(path, t.Self())] <==>
            IsNode(Descend(t, r), n) && (Descend(t, r).Hashed() || r == [])
    decreases t, 0
  {
    match t {
      case Tip(_) =>
      case Path(_, key, kid) => PathIff(t, path, r, n);
      case Fork(_, kids) => ForkIff(t, path, r, n);
    }
    LastIs(t.Below(path), path, r, t.Self(), n);
  }

  lemma LastIs(es: seq<Emission>, path: bytes, r: bytes, self: Node, n: Node)
    ensures Emission(path + r, n) in es + [Emission(path, self)] <==>
              Emission(path + r, n) in es || (r == [] && n == self)
  {
    assert path + r == path <==> r == [];
  }

  lemma PrefixTail(path: bytes, key: bytes, r: bytes)
    requires path + key <= path + r
    ensures key <= r
  {
    assert (path + key)[|path|..] == key && (path + r)[|path|..] == r;
  }

  lemma {:induction false} PathIff(t: Tree, path: bytes, r: bytes, n: Node)
    requires t.Good() && t.Path? && !n.shape.Leaf?
    ensures Emission(path + r, n) in t.kid.Emit(path + t.key) <==>
              r != [] && IsNode(Descend(t, r), n) && Descend(t, r).Hashed()
    decreases t, 0, 0
  {
    var e := Emission(path + r, n);
    if e in t.kid.Emit(path + t.key) {
      EmitBelow(t.kid, path + t.key, e);
      PrefixTail(path, t.key, r);
    }
    if r != [] && t.key <= r {
      assert path + t.key + r[|t.key|..] == path + r;
      EmitIff(t.kid, path + t.key, r[|t.key|..], n);
    }
  }

  lemma {:induction false} ForkIff(t: Tree, path: bytes, r: bytes, n: Node)
    requires t.Good() && t.Fork? && !n.shape.Leaf?
    ensures Emission(path + r, n) in t.Some(path, 16) <==> r != [] && IsNode(Descend(t, r), n) && Descend(t, r).Hashed()
    decreases t, 0, 0
  {
    var e := Emission(path + r, n);
    if e in t.Some(path, 16) {
      var i := WhichKid(t, path, 16, e);
      PrefixTail(path, [i as byte], r);
      assert r[0] as int == i;
    }
    if r != [] && r[0] < 16 {
      assert path + [r[0]] + r[1..] == path + r;
      EmitIff(t.kids[r[0]], path + [r[0]], r[1..], n);
      if e in t.kids[r[0]].Emit(path + [r[0]]) { FromKid(t, path, 16, r[0] as nat, e); }
    }
  }

  lemma NodesInHas(es: seq<Emission>, p: bytes, n: Node)
    requires Emits(es, NodesIn(es)) && !n.shape.Leaf?
    ensures p in NodesIn(es) && NodesIn(es)[p] == n <==> Emission(p, n) in es
  {
    if p in NodesIn(es) && NodesIn(es)[p] == n {
      var i := IndexOf(es, p);
      assert es[i] == Emission(p, n);
    }
    if Emission(p, n) in es {
      var i :| 0 <= i < |es| && es[i] == Emission(p, n);
      assert Kept(es[i]);
    }
  }

  /** A roll of a trie stores exactly its root and its hashed internal nodes. */
  lemma StackTrieNodes(t: Tree, p: bytes, n: Node)
    requires t.Good() && !t.Nil? && !n.shape.Leaf?
    ensures p in NodesIn(Callbacks(t)) && NodesIn(Callbacks(t))[p] == n <==>
            IsNode(Descend(t, p), n) && (Descend(t, p).Hashed() || p == [])
  {
    StackTrieEmits(t);
    NodesInHas(Callbacks(t), p, n);
    BelowIff(t, [], p, n);
    assert [] + p == p;
  }
}
