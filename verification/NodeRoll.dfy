/** commit/commit.go and commit/file.go: one roll writes every storage trie and
    the account trie into one file, interleaved, and Node reads any of them back. */
module NodeRoll {
  import opened Bytes
  import opened Nibbles
  import opened NodeTrie
  import opened NodeFile
  import opened NodeWalk
  import opened NodeIndex
  import opened NodeFooter

  /** One callback of a StackTrie writer. */
  datatype Emission = Emission(path: bytes, node: Node)

  predicate Kept(e: Emission) { !e.node.shape.Leaf? }

  /** p is among the first k emitted internal nodes. */
  ghost predicate Among(es: seq<Emission>, k: nat, p: bytes)
    requires k <= |es|
  {
    exists i {:trigger Kept(es[i])} :: 0 <= i < k && Kept(es[i]) && es[i].path == p
  }

  /** What a StackTrie over these nodes emits: every internal node once, each after
      its children; leaves, which are skipped, anywhere between. */
  ghost predicate Emits(es: seq<Emission>, nodes: Nodes) {
    && IsTrie(nodes)
    && (forall i {:trigger Kept(es[i])} :: 0 <= i < |es| && Kept(es[i]) ==>
          es[i].path in nodes && nodes[es[i].path] == es[i].node)
    && (forall p {:trigger p in nodes} :: p in nodes ==> Among(es, |es|, p))
    && (forall i, j {:trigger Kept(es[i]), Kept(es[j])} :: 0 <= i < j < |es| && Kept(es[i]) && Kept(es[j]) ==>
          es[i].path != es[j].path && !IsChild(es[i].path, es[i].node.shape, es[j].path))
  }

  /** The shapes are the blobs' own and none is malformed. */
  ghost predicate Real(es: seq<Emission>) {
    forall i {:trigger es[i]} :: 0 <= i < |es| ==> Says(es[i].node) && !es[i].node.shape.Malformed?
  }

  /** The first k emissions have been written. */
  ghost predicate Reached(nodes: Nodes, t: Tree, es: seq<Emission>, k: nat) {
    && k <= |es| && Emits(es, nodes)
    && (forall p {:trigger p in t} :: p in t <==> Among(es, k, p))
  }

  lemma NextIsReady(s: Sound, es: seq<Emission>, k: nat)
    requires Reached(s.nodes, s.t, es, k) && k < |es| && Kept(es[k])
    ensures Ready(s, es[k].path, es[k].node)
  {
    var e := es[k];
    assert !Among(es, k, e.path);
    forall c {:trigger IsChild(e.path, e.node.shape, c)} | c in s.nodes && IsChild(e.path, e.node.shape, c)
      ensures c in s.t
    {
      ChildIsLonger(s.nodes, e.path, c);
      ChildFirst(es, s.nodes, k, c);
    }
  }

  lemma ChildFirst(es: seq<Emission>, nodes: Nodes, k: nat, c: bytes)
    requires Emits(es, nodes) && k < |es| && Kept(es[k]) && c in nodes
    requires IsChild(es[k].path, es[k].node.shape, c) && c != es[k].path
    ensures Among(es, k, c)
  {
    assert Among(es, |es|, c);
    var i :| 0 <= i < |es| && Kept(es[i]) && es[i].path == c;
    assert i < k;
  }

  lemma AmongNext(es: seq<Emission>, k: nat, p: bytes)
    requires k < |es|
    ensures Among(es, k + 1, p) <==> Among(es, k, p) || (Kept(es[k]) && es[k].path == p)
  {
    if i :| 0 <= i < k && Kept(es[i]) && es[i].path == p { assert Kept(es[i]) && 0 <= i < k + 1; }
    if Kept(es[k]) && es[k].path == p { assert 0 <= k < k + 1; }
  }

  lemma NextReached(nodes: Nodes, t: Tree, t': Tree, es: seq<Emission>, k: nat)
    requires Reached(nodes, t, es, k) && k < |es|
    requires if Kept(es[k]) then es[k].path in t' && t' == t[es[k].path := t'[es[k].path]] else t' == t
    ensures Reached(nodes, t', es, k + 1) && ([] in t ==> [] in t')
  {
    forall p {:trigger p in t'} ensures p in t' <==> Among(es, k + 1, p) {
      AmongNext(es, k, p);
      assert p in t <==> Among(es, k, p);
    }
  }

  /** When all is emitted the trie is complete and nothing is pending. */
  lemma AllReached(s: Sound, es: seq<Emission>) returns (f: Filed)
    requires Reached(s.nodes, s.t, es, |es|)
    ensures f == Stored(s.nodes, s.t, s.m) && s.pending == map[]
  {
    assert forall p :: p in s.nodes ==> p in s.t;
    if s.nodes == map[] {
      assert s.t.Keys == {};
      forall q ensures q !in s.pending { NotPending(s.nodes, s.t, s.pending, q); }
      f := Stored(s.nodes, s.t, s.m);
    } else {
      var p :| p in s.nodes;
      Rootless(s.nodes, p);
      f := RootEnds(s);
    }
  }

  /** Appending to the file disturbs no record already in it. */
  lemma TreeGrows(m: bytes, m': bytes, t: Tree)
    requires AllLinked(m, t) && m <= m'
    ensures AllLinked(m', t)
  {
    assert m' == m + m'[|m|..];
    forall p | p in t ensures Linked(m', t, p) {
      assert Linked(m, t, p);
      RecordKept(m, m'[|m|..], t[p].off, t[p].node, ChildOffs(t, p, t[p].node.shape));
    }
  }

  lemma StateGrows(s: Sound, m: bytes) returns (s': Sound)
    requires s.m <= m
    ensures s' == s.(m := m)
  {
    TreeGrows(s.m, m, s.t);
    s' := Assemble(s, s.t, m, s.pending);
  }

  lemma FiledGrows(f: Filed, m: bytes) returns (f': Filed)
    requires f.m <= m
    ensures f' == f.(m := m)
  {
    TreeGrows(f.m, m, f.t);
    f' := f.(m := m);
  }

  // ----------------------------------------------------------------- emission

  /** The emit callback on values. */
  method EmitOne(m: bytes, pending: map<bytes, nat>, rootOff: nat, path: bytes, blob: bytes, ghost s: Sound,
                 ghost es: seq<Emission>, ghost k: nat)
    returns (m': bytes, pending': map<bytes, nat>, rootOff': nat, ghost s': Sound)
    requires s.m == m && s.pending == pending && MagicLen <= |m|
    requires Reached(s.nodes, s.t, es, k) && k < |es| && Real(es) && es[k].path == path && es[k].node.blob == blob
    ensures s'.m == m' && s'.pending == pending' && m <= m' && s'.nodes == s.nodes && Reached(s'.nodes, s'.t, es, k + 1)
    ensures [] in s.t ==> [] in s'.t
    ensures [] !in s'.t ==> rootOff' == rootOff
    ensures rootOff == Off(s.t, []) ==> rootOff' == Off(s'.t, [])
  {
    var n := Node(blob, ShapeOf(blob));
    assert n == es[k].node by { assert Says(es[k].node); }
    m', pending', rootOff', s' := EmitShaped(m, pending, rootOff, path, n, s, es, k);
  }

  method EmitShaped(m: bytes, pending: map<bytes, nat>, rootOff: nat, path: bytes, n: Node, ghost s: Sound,
                    ghost es: seq<Emission>, ghost k: nat)
    returns (m': bytes, pending': map<bytes, nat>, rootOff': nat, ghost s': Sound)
    requires s.m == m && s.pending == pending && MagicLen <= |m|
    requires Reached(s.nodes, s.t, es, k) && k < |es| && es[k] == Emission(path, n) && !n.shape.Malformed?
    ensures s'.m == m' && s'.pending == pending' && m <= m' && s'.nodes == s.nodes && Reached(s'.nodes, s'.t, es, k + 1)
    ensures [] in s.t ==> [] in s'.t
    ensures [] !in s'.t ==> rootOff' == rootOff
    ensures rootOff == Off(s.t, []) ==> rootOff' == Off(s'.t, [])
  {
    if !n.shape.Leaf? { NextIsReady(s, es, k); }
    m', pending', s' := EmitNode(m, pending, path, n, s);
    rootOff' := if !n.shape.Leaf? && path == [] then |m| else rootOff;
    NextReached(s.nodes, s.t, s'.t, es, k);
  }

  /** The callbacks lo..hi of one trie, nothing else written between them. */
  method EmitAll(m: bytes, pending: map<bytes, nat>, rootOff: nat, es: seq<Emission>, lo: nat, hi: nat, ghost s: Sound)
    returns (m': bytes, pending': map<bytes, nat>, rootOff': nat, ghost s': Sound)
    requires s.m == m && s.pending == pending && MagicLen <= |m|
    requires lo <= hi <= |es| && Reached(s.nodes, s.t, es, lo) && Real(es)
    ensures s'.m == m' && s'.pending == pending' && m <= m' && s'.nodes == s.nodes && Reached(s'.nodes, s'.t, es, hi)
    ensures [] in s.t ==> [] in s'.t
    ensures [] !in s'.t ==> rootOff' == rootOff
    ensures rootOff == Off(s.t, []) ==> rootOff' == Off(s'.t, [])
  {
    m', pending', rootOff', s' := m, pending, rootOff, s;
    for k := lo to hi
      invariant s'.m == m' && s'.pending == pending' && m <= m' && s'.nodes == s.nodes && Reached(s'.nodes, s'.t, es, k)
      invariant ([] in s.t ==> [] in s'.t) && ([] !in s'.t ==> rootOff' == rootOff)
      invariant rootOff == Off(s.t, []) ==> rootOff' == Off(s'.t, [])
    {
      m', pending', rootOff', s' := EmitOne(m', pending', rootOff', es[k].path, es[k].node.blob, s', es, k);
    }
  }

  // --------------------------------------------------------------------- roll

  /** One account of the flat state: what its storage trie emits, the first cut
      callbacks while slots are fed and the rest when it is hashed, and how far the
      account trie's own callbacks are once the account is fed to it. */
  datatype Account = Account(hash: bytes, slots: bool, es: seq<Emission>, cut: nat, root: bytes, nodes: Nodes,
                             accTo: nat)

  ghost predicate ValidAccount(a: Account) {
    && |a.hash| == 32 && |a.root| == 32 && Emits(a.es, a.nodes) && Real(a.es) && a.cut <= |a.es|
    && RootLate(a.es, a.cut) && (!a.slots ==> a.es == [])
  }

  /** A root is only emitted when its trie is hashed. */
  ghost predicate RootLate(es: seq<Emission>, cut: nat)
    requires cut <= |es|
  {
    forall i {:trigger Kept(es[i])} :: 0 <= i < cut && Kept(es[i]) ==> es[i].path != []
  }

  lemma NoRootYet(nodes: Nodes, t: Tree, es: seq<Emission>, k: nat)
    requires Reached(nodes, t, es, k) && RootLate(es, k)
    ensures [] !in t
  {
    assert [] in t <==> Among(es, k, []);
  }

  lemma Begin(nodes: Nodes, m: bytes, es: seq<Emission>) returns (s: Sound)
    requires Emits(es, nodes)
    ensures s == State(nodes, map[], m, map[]) && Reached(s.nodes, s.t, es, 0)
  {
    NoneReached(nodes, es);
    NothingWritten(nodes, m);
    s := State(nodes, map[], m, map[]);
  }

  lemma NothingWritten(nodes: Nodes, m: bytes)
    requires IsTrie(nodes)
    ensures StateInv(State(nodes, map[], m, map[]))
  {
  }

  lemma NoneReached(nodes: Nodes, es: seq<Emission>)
    requires Emits(es, nodes)
    ensures IsTrie(nodes) && Reached(nodes, map[], es, 0)
  {
  }

  /** The storage half of flush: the trie is complete in the file and rootOff is
      its root record, or 0 when it has no internal node. */
  method RollStorage(m: bytes, pending: map<bytes, nat>, rootOff: nat, a: Account)
    returns (m': bytes, pending': map<bytes, nat>, rootOff': nat, ghost f: Filed)
    requires ValidAccount(a) && pending == map[] && MagicLen <= |m|
    ensures m <= m' && pending' == map[] && f.nodes == a.nodes && f.m == m' && rootOff' == Off(f.t, [])
  {
    ghost var s := Begin(a.nodes, m, a.es);
    m', pending', rootOff', s := EmitAll(m, pending, rootOff, a.es, 0, a.cut, s);
    NoRootYet(s.nodes, s.t, a.es, a.cut);
    rootOff' := 0;
    m', pending', rootOff', s := EmitAll(m', pending', rootOff', a.es, a.cut, |a.es|, s);
    f := AllReached(s, a.es);
  }

  /** The storage tries written so far, by account hash. */
  datatype Storage = Storage(f: Filed, root: bytes)

  ghost predicate Indexed(es: seq<Slot>, tries: map<bytes, Storage>) {
    && (forall i {:trigger es[i]} :: 0 <= i < |es| ==> IndexedSlot(es[i], tries))
    && (forall h {:trigger h in tries} :: h in tries && [] in tries[h].f.t ==> HasSlot(es, h))
  }

  ghost predicate IndexedSlot(e: Slot, tries: map<bytes, Storage>) {
    && |e.hash| == 32 && |e.root| == 32 && e.hash in tries
    && tries[e.hash].root == e.root && [] in tries[e.hash].f.t && tries[e.hash].f.t[[]].off == e.off
  }

  ghost predicate HasSlot(es: seq<Slot>, h: bytes) { exists i :: 0 <= i < |es| && es[i].hash == h }

  ghost predicate Within(tries: map<bytes, Storage>, m: bytes) {
    forall h {:trigger h in tries} :: h in tries ==> tries[h].f.m <= m && Classified(tries[h].f.nodes)
  }

  ghost predicate Before(tries: map<bytes, Storage>, hash: bytes) {
    forall h {:trigger h in tries} :: h in tries ==> Less(h, hash)
  }

  lemma SlotKept(e: Slot, tries: map<bytes, Storage>, hash: bytes, st: Storage)
    requires IndexedSlot(e, tries) && hash !in tries
    ensures IndexedSlot(e, tries[hash := st])
  {
  }

  lemma IndexedMore(es: seq<Slot>, tries: map<bytes, Storage>, hash: bytes, st: Storage)
    requires Indexed(es, tries) && Before(tries, hash) && Sorted(es) && |hash| == 32 && |st.root| == 32
    ensures var es' := if [] in st.f.t then es + [Slot(hash, st.root, st.f.t[[]].off)] else es;
            Indexed(es', tries[hash := st]) && Sorted(es')
  {
    var es' := if [] in st.f.t then es + [Slot(hash, st.root, st.f.t[[]].off)] else es;
    var tries' := tries[hash := st];
    assert hash !in tries by { LessIrreflexive(hash); }
    forall i {:trigger es'[i]} | 0 <= i < |es'| ensures IndexedSlot(es'[i], tries') {
      if i < |es| { SlotKept(es[i], tries, hash, st); }
    }
    forall h {:trigger h in tries'} | h in tries' && [] in tries'[h].f.t ensures HasSlot(es', h) {
      if h == hash {
        assert es'[|es|].hash == h;
      } else {
        assert h in tries && HasSlot(es, h);
        var i :| 0 <= i < |es| && es[i].hash == h;
        assert es'[i].hash == h;
      }
    }
    assert AllBelow(es, hash) by {
      forall i {:trigger Less(es[i].hash, hash)} | 0 <= i < |es| ensures Less(es[i].hash, hash) {
        assert IndexedSlot(es[i], tries);
      }
    }
    if [] in st.f.t { SortedAppend(es, Slot(hash, st.root, st.f.t[[]].off)); }
  }

  lemma WithinMore(tries: map<bytes, Storage>, m: bytes, m': bytes, hash: bytes, st: Storage)
    requires Within(tries, m) && m <= m' && st.f.m <= m' && Classified(st.f.nodes)
    ensures Within(tries[hash := st], m')
  {
    var tries' := tries[hash := st];
    forall h {:trigger h in tries'} | h in tries' ensures tries'[h].f.m <= m' && Classified(tries'[h].f.nodes) {
      if h != hash { PrefixTransitive(tries[h].f.m, m, m'); }
    }
  }

  /** Every internal node was emitted, so it is what its blob says. */
  lemma EmittedClassified(es: seq<Emission>, nodes: Nodes)
    requires Emits(es, nodes) && Real(es)
    ensures Classified(nodes)
  {
    forall p | p in nodes ensures Says(nodes[p]) {
      assert Among(es, |es|, p);
      var i :| 0 <= i < |es| && Kept(es[i]) && es[i].path == p;
      assert Says(es[i].node);
    }
  }

  /** The index and the storage tries it names. */
  ghost predicate Catalog(idx: bytes, n: nat, entries: seq<Slot>, tries: map<bytes, Storage>, m: bytes) {
    IndexIs(idx, entries) && n == |entries| && Sorted(entries) && Indexed(entries, tries) && Within(tries, m)
  }

  datatype Book = Book(idx: bytes, n: nat, entries: seq<Slot>, tries: map<bytes, Storage>, m: bytes)

  type Shelved = b: Book | Catalog(b.idx, b.n, b.entries, b.tries, b.m)
    ghost witness Book([], 0, [], map[], [])

  /** The index half of flush: an entry when the storage root is internal. */
  method IndexEntry(idx: bytes, n: nat, a: Account, rootOff: nat, ghost entries: seq<Slot>,
                    ghost tries: map<bytes, Storage>, ghost m: bytes, ghost m': bytes, ghost st: Storage)
    returns (idx': bytes, n': nat, ghost entries': seq<Slot>)
    requires Catalog(idx, n, entries, tries, m) && m <= m' && Before(tries, a.hash) && |a.hash| == 32 && |a.root| == 32
    requires st.root == a.root && st.f.m == m' && Classified(st.f.nodes) && rootOff == Off(st.f.t, [])
    requires (rootOff != 0 <==> [] in st.f.t)
    requires rootOff != 0 ==> a.slots
    ensures Catalog(idx', n', entries', tries[a.hash := st], m')
  {
    WithinMore(tries, m, m', a.hash, st);
    IndexedMore(entries, tries, a.hash, st);
    idx', n', entries' := idx, n, entries;
    if a.slots && rootOff != 0 {
      ghost var e := Slot(a.hash, a.root, rootOff);
      IndexAppend(idx, entries, e);
      idx', n', entries' := idx + (a.hash + a.root + Le(rootOff, 8)), n + 1, entries + [e];
    }
  }

  lemma StoredIs(a: Account, f: Filed)
    requires ValidAccount(a) && f.nodes == a.nodes
    ensures Classified(f.nodes) && (Off(f.t, []) != 0 <==> [] in f.t) && ([] in f.t ==> a.slots)
  {
    OffInFile(f, []);
    EmittedClassified(a.es, a.nodes);
    assert [] in f.t ==> Among(a.es, |a.es|, []);
  }

  method IndexStorage(idx: bytes, n: nat, a: Account, rootOff: nat, ghost b: Shelved, ghost f: Filed)
    returns (idx': bytes, n': nat, ghost b': Shelved)
    requires b.idx == idx && b.n == n && Before(b.tries, a.hash) && ValidAccount(a)
    requires b.m <= f.m && f.nodes == a.nodes && rootOff == Off(f.t, [])
    ensures b'.idx == idx' && b'.n == n' && b'.m == f.m && b'.tries == b.tries[a.hash := Storage(f, a.root)]
  {
    StoredIs(a, f);
    ghost var st, es := Storage(f, a.root), [];
    idx', n', es := IndexEntry(idx, n, a, rootOff, b.entries, b.tries, b.m, f.m, st);
    b' := Book(idx', n', es, b.tries[a.hash := st], f.m);
  }

  lemma BookGrows(b: Shelved, m: bytes) returns (b': Shelved)
    requires b.m <= m
    ensures b' == b.(m := m)
  {
    forall h {:trigger h in b.tries} | h in b.tries ensures b.tries[h].f.m <= m {
      PrefixTransitive(b.tries[h].f.m, b.m, m);
    }
    b' := b.(m := m);
  }

  /** A trie being emitted, k of its callbacks made. */
  datatype Stream = Stream(s: Sound, es: seq<Emission>, k: nat)

  type Emitting = e: Stream | Reached(e.s.nodes, e.s.t, e.es, e.k) && Real(e.es)
    ghost witness Stream(State(map[], map[], [], map[]), [], 0)

  /** The next callbacks of a trie, after other tries may have written. */
  method EmitMore(m: bytes, pending: map<bytes, nat>, rootOff: nat, es: seq<Emission>, k: nat, to: nat,
                  ghost e: Emitting)
    returns (m': bytes, pending': map<bytes, nat>, rootOff': nat, ghost e': Emitting)
    requires e.es == es && e.k == k <= to <= |es| && e.s.pending == pending && e.s.m <= m && MagicLen <= |m|
    ensures e'.es == es && e'.k == to && e'.s.pending == pending' && e'.s.m == m' && m <= m' && e'.s.nodes == e.s.nodes
    ensures e.s.m <= e'.s.m
    ensures rootOff == Off(e.s.t, []) ==> rootOff' == Off(e'.s.t, [])
  {
    ghost var s := StateGrows(e.s, m);
    m', pending', rootOff', s := EmitAll(m, pending, rootOff, es, k, to, s);
    PrefixTransitive(e.s.m, m, m');
    e' := Stream(s, es, to);
  }

  lemma PrefixTransitive(a: bytes, b: bytes, c: bytes)
    requires a <= b <= c
    ensures a <= c
  {
  }

  method RollAccount(m: bytes, pending: map<bytes, nat>, rootOff: nat, idx: bytes, n: nat, a: Account, ghost m0: bytes,
                     ghost b: Shelved)
    returns (m': bytes, pending': map<bytes, nat>, rootOff': nat, idx': bytes, n': nat, ghost b': Shelved)
    requires ValidAccount(a) && Before(b.tries, a.hash) && pending == map[] && MagicLen <= |m| && m0 <= m
    requires b.idx == idx && b.n == n && b.m == m
    ensures pending' == map[] && MagicLen <= |m'| && m0 <= m' && b'.idx == idx' && b'.n == n' && b'.m == m'
    ensures a.hash in b'.tries && b'.tries[a.hash].root == a.root && b'.tries[a.hash].f.nodes == a.nodes
    ensures b'.tries == b.tries[a.hash := b'.tries[a.hash]]
  {
    ghost var f: Filed;
    m', pending', rootOff', f := RollStorage(m, pending, rootOff, a);
    PrefixTransitive(m0, m, m');
    idx', n', b' := IndexStorage(idx, n, a, rootOff', b, f);
  }

  /** The writer's fields, against the account trie on its way and the tries written. */
  ghost predicate Writing(m: bytes, accPending: map<bytes, nat>, stPending: map<bytes, nat>, idx: bytes, idxN: nat,
                          accEs: seq<Emission>, k: nat, acc: Emitting, book: Shelved) {
    && MagicLen <= |m| && Magic <= acc.s.m <= m && acc.s.pending == accPending && stPending == map[]
    && acc.es == accEs && acc.k == k && book.idx == idx && book.n == idxN && book.m == m
  }

  class Writer {
    var m: bytes // what has reached the file
    var rootOff: nat
    var accPending: map<bytes, nat>
    var stPending: map<bytes, nat>
    var idx: bytes
    var idxN: nat
    const accEs: seq<Emission> // the callbacks of the account trie
    var k: nat // how many of them were made
    ghost var acc: Emitting
    ghost var book: Shelved

    ghost predicate Valid()
      reads this
    {
      Writing(m, accPending, stPending, idx, idxN, accEs, k, acc, book)
    }

    constructor (accEs: seq<Emission>, ghost nodes: Nodes)
      requires Emits(accEs, nodes) && Real(accEs)
      ensures Valid() && acc.s.nodes == nodes && k == 0 && book.tries == map[] && this.accEs == accEs
    {
      m, rootOff, accPending, stPending, idx, idxN, k := Magic, 0, map[], map[], [], 0, 0;
      this.accEs, book := accEs, Book([], 0, [], map[], Magic);
      ghost var s := Begin(nodes, Magic, accEs);
      acc := Stream(s, accEs, 0);
    }

    /** The callbacks of the account trie up to the to-th. */
    method EmitAccount(to: nat)
      requires Valid() && k <= to <= |accEs|
      modifies this
      ensures Valid() && k == to && acc.s.nodes == old(acc.s.nodes) && book.tries == old(book.tries)
      ensures old(rootOff == Off(acc.s.t, [])) ==> rootOff == Off(acc.s.t, [])
    {
      ghost var before := acc.s.m;
      m, accPending, rootOff, acc := EmitMore(m, accPending, rootOff, accEs, k, to, acc);
      PrefixTransitive(Magic, before, acc.s.m);
      book := BookGrows(book, m);
      k := to;
    }

    /** flush: the account's storage trie, its index entry, then the account. */
    method Flush(a: Account)
      requires Valid() && ValidAccount(a) && Before(book.tries, a.hash) && k <= a.accTo <= |accEs|
      modifies this
      ensures Valid() && k == a.accTo && acc.s.nodes == old(acc.s.nodes)
      ensures a.hash in book.tries && book.tries[a.hash].root == a.root && book.tries[a.hash].f.nodes == a.nodes
      ensures book.tries == old(book.tries)[a.hash := book.tries[a.hash]]
    {
      ghost var was, now := FlushStorage(a);
      EmitAccount(a.accTo);
    }

    method FlushStorage(a: Account) returns (ghost was: Shelved, ghost now: Shelved)
      requires Valid() && ValidAccount(a) && Before(book.tries, a.hash)
      modifies this`m, this`rootOff, this`stPending, this`idx, this`idxN, this`book
      ensures Valid() && was == old(book) && now == book
      ensures a.hash in now.tries && now.tries[a.hash].root == a.root && now.tries[a.hash].f.nodes == a.nodes
      ensures now.tries == was.tries[a.hash := now.tries[a.hash]]
    {
      was := book;
      m, stPending, rootOff, idx, idxN, now := RollAccount(m, stPending, rootOff, idx, idxN, a, acc.s.m, book);
      book := now;
    }
  }

  /** What the file holds: the account trie and a storage trie per account. */
  datatype Tries = Tries(acc: Filed, book: Shelved)

  ghost predicate Holds(a: Archive, c: Tries) {
    && c.acc.m == a.m == c.book.m && Classified(c.acc.nodes) && a.rootOff == Off(c.acc.t, [])
    && a.idxOff + a.idxN * EntryLen <= |a.m| && a.m[a.idxOff..a.idxOff + a.idxN * EntryLen] == c.book.idx
    && a.idxN == c.book.n
  }

  /** The flat state in key order, as the iterator gives it: account hashes ascend
      and the account trie's callbacks only move forward. */
  ghost predicate InKeyOrder(accounts: seq<Account>, accEs: seq<Emission>) {
    && (forall i {:trigger accounts[i]} :: 0 <= i < |accounts| ==>
          ValidAccount(accounts[i]) && accounts[i].accTo <= |accEs| && RootLate(accEs, accounts[i].accTo))
    && (forall i, j {:trigger accounts[i], accounts[j]} :: 0 <= i < j < |accounts| ==>
          Less(accounts[i].hash, accounts[j].hash) && accounts[i].accTo <= accounts[j].accTo)
  }

  /** Exactly the accounts fed so far have a storage trie on file. */
  ghost predicate Covers(tries: map<bytes, Storage>, accounts: seq<Account>) {
    && (forall h {:trigger h in tries} :: h in tries ==>
          exists i {:trigger accounts[i]} :: 0 <= i < |accounts| && accounts[i].hash == h)
    && (forall i {:trigger accounts[i]} :: 0 <= i < |accounts| ==> CoversOne(tries, accounts[i]))
  }

  ghost predicate CoversOne(tries: map<bytes, Storage>, a: Account) {
    a.hash in tries && tries[a.hash].root == a.root && tries[a.hash].f.nodes == a.nodes
  }

  lemma CoversMore(tries: map<bytes, Storage>, tries': map<bytes, Storage>, accounts: seq<Account>, a: Account)
    requires Covers(tries, accounts) && CoversOne(tries', a) && tries' == tries[a.hash := tries'[a.hash]]
    requires Before(tries, a.hash)
    ensures Covers(tries', accounts + [a])
  {
    var more := accounts + [a];
    assert a.hash !in tries by { LessIrreflexive(a.hash); }
    forall h {:trigger h in tries'} | h in tries'
      ensures exists i {:trigger more[i]} :: 0 <= i < |more| && more[i].hash == h
    {
      if h == a.hash {
        assert more[|accounts|].hash == h;
      } else {
        var i :| 0 <= i < |accounts| && accounts[i].hash == h;
        assert more[i].hash == h;
      }
    }
    forall i {:trigger more[i]} | 0 <= i < |more| ensures CoversOne(tries', more[i]) {
      if i < |accounts| { assert CoversOne(tries, accounts[i]); }
    }
  }

  lemma NextAfter(tries: map<bytes, Storage>, accounts: seq<Account>, accEs: seq<Emission>, i: nat)
    requires InKeyOrder(accounts, accEs) && i < |accounts| && Covers(tries, accounts[..i])
    ensures Before(tries, accounts[i].hash)
  {
    var done := accounts[..i];
    forall h {:trigger h in tries} | h in tries ensures Less(h, accounts[i].hash) {
      var j :| 0 <= j < |done| && done[j].hash == h;
      assert accounts[j] == done[j];
    }
  }

  /** What a roll leaves: a file that opens, with the stamp it was given, and holds the
      account trie and exactly one storage trie per account. */
  ghost predicate Rolled(file: bytes, crc: bytes -> Crc, stamp: Stamp, nodes: Nodes, accounts: seq<Account>) {
    var a := Open(file, crc);
    && a.Some? && a.value.m == file && a.value.stamp == stamp
    && exists c: Tries {:trigger Holds(a.value, c)} ::
         Holds(a.value, c) && c.acc.nodes == nodes && Covers(c.book.tries, accounts)
  }

  /** Roll: every trie of the state, account by account, in one pass. */
  method Roll(accounts: seq<Account>, accEs: seq<Emission>, stamp: Stamp, crc: bytes -> Crc, ghost nodes: Nodes)
    returns (file: bytes)
    requires Emits(accEs, nodes) && Real(accEs) && InKeyOrder(accounts, accEs) && ValidStamp(stamp)
    ensures |file| < Max64 ==> Rolled(file, crc, stamp, nodes, accounts)
  {
    var w := new Writer(accEs, nodes);
    FeedAll(w, accounts);
    NoRoot(w.acc, accounts);
    w.rootOff := 0;
    w.EmitAccount(|accEs|);
    PrefixTransitive(Magic, w.acc.s.m, w.m);
    ghost var c;
    file, c := Finish(w.m, w.rootOff, w.idx, w.idxN, stamp, crc, w.acc, w.book);
  }

  /** The loop of roll: account by account, each with its storage trie. */
  method FeedAll(w: Writer, accounts: seq<Account>)
    requires w.Valid() && w.k == 0 && w.book.tries == map[] && InKeyOrder(accounts, w.accEs)
    modifies w
    ensures w.Valid() && w.acc.s.nodes == old(w.acc.s.nodes) && Covers(w.book.tries, accounts)
    ensures w.k == if accounts == [] then 0 else accounts[|accounts| - 1].accTo
  {
    ghost var done := CoversNone();
    for i := 0 to |accounts|
      invariant w.Valid() && w.acc.s.nodes == old(w.acc.s.nodes) && done == accounts[..i] && Covers(w.book.tries, done)
      invariant w.k == if i == 0 then 0 else accounts[i - 1].accTo
    {
      FeedOne(w, accounts, i, done);
      DropDrop(accounts, i);
      done := done + [accounts[i]];
    }
    assert done == accounts;
  }

  lemma CoversNone() returns (none: seq<Account>)
    ensures none == [] && Covers(map[], none)
  {
    none := [];
  }

  method FeedOne(w: Writer, accounts: seq<Account>, i: nat, ghost done: seq<Account>)
    requires w.Valid() && i < |accounts| && InKeyOrder(accounts, w.accEs) && done == accounts[..i]
    requires Covers(w.book.tries, done)
    requires w.k == if i == 0 then 0 else accounts[i - 1].accTo
    modifies w
    ensures w.Valid() && w.acc.s.nodes == old(w.acc.s.nodes) && Covers(w.book.tries, done + [accounts[i]])
    ensures w.k == accounts[i].accTo
  {
    NextAfter(w.book.tries, accounts, w.accEs, i);
    ghost var tries := w.book.tries;
    w.Flush(accounts[i]);
    CoversMore(tries, w.book.tries, done, accounts[i]);
  }

  lemma NoRoot(e: Emitting, accounts: seq<Account>)
    requires InKeyOrder(accounts, e.es) && e.k == if accounts == [] then 0 else accounts[|accounts| - 1].accTo
    ensures Off(e.s.t, []) == 0
  {
    if accounts != [] { assert ValidAccount(accounts[|accounts| - 1]); }
    NoRootYet(e.s.nodes, e.s.t, e.es, e.k);
  }

  /** finish: the index follows the last node, and the footer the index. */
  method Finish(m: bytes, rootOff: nat, idx: bytes, n: nat, stamp: Stamp, crc: bytes -> Crc, ghost e: Emitting,
                ghost b: Shelved)
    returns (file: bytes, ghost c: Tries)
    requires e.s.m <= m == b.m && Magic <= m && e.k == |e.es| && rootOff == Off(e.s.t, []) && b.idx == idx && b.n == n
    requires ValidStamp(stamp)
    ensures c.acc.nodes == e.s.nodes && c.book.tries == b.tries
    ensures |file| < Max64 ==> Open(file, crc) == Some(Archive(file, rootOff, |m|, n, stamp))
    ensures |file| < Max64 ==> Holds(Archive(file, rootOff, |m|, n, stamp), c)
  {
    var foot := FooterBytes(Footer(rootOff, |m|, n, stamp), crc);
    file := m + idx + foot;
    ghost var f := AllReached(e.s, e.es);
    OffInFile(f, []);
    EmittedClassified(e.es, e.s.nodes);
    FilePieces(f.m, m, idx, foot);
    f := FiledGrows(f, file);
    ghost var b' := BookGrows(b, file);
    c := Tries(f, b');
    if |file| < Max64 { OpensRolled(m, idx, n, rootOff, stamp, crc, b); }
  }

  lemma FilePieces(a: bytes, m: bytes, idx: bytes, foot: bytes)
    requires a <= m
    ensures a <= m + idx + foot && m <= m + idx + foot && (m + idx + foot)[|m|..|m| + |idx|] == idx
  {
    assert m + idx + foot == m + (idx + foot);
  }

  lemma OpensRolled(m: bytes, idx: bytes, n: nat, rootOff: nat, stamp: Stamp, crc: bytes -> Crc, b: Shelved)
    requires Magic <= m && rootOff <= |m| && ValidStamp(stamp) && b.idx == idx && b.n == n
    requires |m + idx + FooterBytes(Footer(rootOff, |m|, n, stamp), crc)| < Max64
    ensures |idx| == n * EntryLen
    ensures var file := m + idx + FooterBytes(Footer(rootOff, |m|, n, stamp), crc);
            Open(file, crc) == Some(Archive(file, rootOff, |m|, n, stamp))
  {
    Max64Is();
    OpenWritten(m, idx, Footer(rootOff, |m|, n, stamp), crc);
  }

  lemma Max64Is()
    ensures Pow256(8) == Max64
  {
    Pow256Four();
    assert Pow256(6) == Pow256(4) * 65536;
    assert Pow256(8) == Pow256(6) * 65536;
  }

  // --------------------------------------------------------------------- read

  ghost function Blob(nodes: Nodes, path: bytes): Option<bytes> {
    if path in nodes then Some(nodes[path].blob) else None
  }

  lemma SlotsFit(b: Shelved)
    requires |b.m| < Max64
    ensures AllSlots(b.entries)
  {
    Max64Is();
    forall i | 0 <= i < |b.entries| ensures ValidSlot(b.entries[i]) {
      assert IndexedSlot(b.entries[i], b.tries);
      var f := b.tries[b.entries[i].hash].f;
      OffInFile(f, []);
      assert f.m <= b.m;
    }
  }

  /** The index names exactly the accounts whose storage root is internal. */
  method FindTrie(a: Archive, acct: bytes, ghost c: Tries) returns (found: bool, root: bytes, off: nat)
    requires Holds(a, c) && |a.m| < Max64
    ensures found <==> acct in c.book.tries && [] in c.book.tries[acct].f.nodes
    ensures found ==> root == c.book.tries[acct].root && off == Off(c.book.tries[acct].f.t, [])
  {
    SlotsFit(c.book);
    ghost var at;
    found, root, off, at := Find(a.m[a.idxOff..a.idxOff + a.idxN * EntryLen], a.idxN, acct, c.book.entries);
    ghost var es, tries := c.book.entries, c.book.tries;
    assert acct in tries && [] in tries[acct].f.t ==> HasSlot(es, acct);
    if found { assert IndexedSlot(es[at], tries); }
  }

  lemma Unstored(f: Filed, path: bytes)
    requires [] !in f.nodes
    ensures path !in f.nodes
  {
    Rootless(f.nodes, path);
  }

  /** File.Node: exactly the blob emitted at that path of that trie, else absent. The
      zero hash names the account trie. */
  method ReadNode(a: Archive, owner: bytes, path: bytes, ghost c: Tries) returns (r: Option<bytes>)
    requires Holds(a, c) && |a.m| < Max64 && IsPath(path)
    ensures owner == Zeros(32) ==> r == Blob(c.acc.nodes, path)
    ensures owner != Zeros(32) && owner in c.book.tries ==> r == Blob(c.book.tries[owner].f.nodes, path)
    ensures owner != Zeros(32) && owner !in c.book.tries ==> r == None
  {
    if owner == Zeros(32) {
      r := Walk(a.m, a.rootOff, path, c.acc);
      return;
    }
    var found, root, off := FindTrie(a, owner, c);
    if !found {
      if owner in c.book.tries { Unstored(c.book.tries[owner].f, path); }
      return None;
    }
    assert c.book.tries[owner].f.m <= a.m;
    ghost var f := FiledGrows(c.book.tries[owner].f, a.m);
    r := Walk(a.m, off, path, f);
  }

  /** StorageRoot: the root hash, when the file knows it. */
  method StorageRoot(a: Archive, acct: bytes, emptyRoot: bytes, ghost c: Tries) returns (root: bytes, ok: bool)
    requires Holds(a, c) && |a.m| < Max64
    ensures ok <==> acct in c.book.tries && [] in c.book.tries[acct].f.nodes
    ensures root == if ok then c.book.tries[acct].root else emptyRoot
  {
    var found, r, off := FindTrie(a, acct, c);
    return if found then r else emptyRoot, found;
  }
}
