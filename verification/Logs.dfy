/** rpc/logs.go over the posting rows of store/mem.go: an index-driven log query
    answers as a scan of every block would. */
module Logs {
  import opened Bytes

  type Addr(==, !new)
  type Topic(==, !new)

  datatype Log = Log(addr: Addr, topics: seq<Topic>)

  /** A block is its transactions' logs; block n of the chain is blocks[n - 1]. */
  type Block = seq<seq<Log>>

  datatype Chain = Chain(blocks: seq<Block>, zero: Topic)
  {
    function At(n: nat): Block
      requires 1 <= n <= |blocks|
    {
      blocks[n - 1]
    }

    /** A block's first TxNum; each block owns its transactions and one more slot. */
    function First(n: nat): nat
      requires 1 <= n <= |blocks| + 1
    {
      if n == 1 then 0 else First(n - 1) + |At(n - 1)| + 1
    }

    function TxNum(n: nat, i: nat): nat
      requires 1 <= n <= |blocks|
    {
      First(n) + i
    }

    function Topic0(l: Log): Topic { if l.topics == [] then zero else l.topics[0] }
  }

  lemma {:induction false} FirstGrows(c: Chain, m: nat, n: nat)
    requires 1 <= m < n <= |c.blocks| + 1
    ensures c.First(m) + |c.At(m)| < c.First(n)
    decreases n
  {
    if m < n - 1 { FirstGrows(c, m, n - 1); }
  }

  // ------------------------------------------------------------------ filters

  /** Alternatives per topic position; None is a wildcard. */
  type Topics = seq<Option<seq<Topic>>>

  /** Addresses or-ed, positions and-ed, values or-ed, missing positions never. */
  predicate Matches(l: Log, addrs: seq<Addr>, topics: Topics) {
    && (addrs == [] || l.addr in addrs)
    && (forall i :: 0 <= i < |topics| && topics[i].Some? ==> i < |l.topics| && l.topics[i] in topics[i].value)
  }

  method LogMatches(l: Log, addrs: seq<Addr>, topics: Topics) returns (ok: bool)
    ensures ok == Matches(l, addrs, topics)
  {
    if |addrs| > 0 {
      var hit := AnyOf(addrs, l.addr);
      if !hit { return false; }
    }
    for i := 0 to |topics|
      invariant forall j :: 0 <= j < i && topics[j].Some? ==> j < |l.topics| && l.topics[j] in topics[j].value
    {
      if topics[i].None? { continue; }
      if i >= |l.topics| { return false; }
      var hit := AnyOf(topics[i].value, l.topics[i]);
      if !hit { return false; }
    }
    return true;
  }

  method AnyOf<T(==)>(s: seq<T>, x: T) returns (hit: bool)
    ensures hit == (x in s)
  {
    hit := false;
    for i := 0 to |s|
      invariant hit == (x in s[..i])
    {
      DropDrop(s, i);
      hit := hit || s[i] == x;
    }
    assert s[..|s|] == s;
  }

  // ----------------------------------------------------------------- postings

  datatype Group = ELog(a: Addr, t0: Topic) | Sig(t0: Topic) | TVal(v: Topic, t0: Topic)

  /** A posting row; bits are the positions its payload has set. */
  datatype Posting = Posting(group: Group, txnum: nat, bits: set<nat>)

  /** A group key, or the first component of one. */
  datatype Prefix = ELogPrefix(a: Addr) | ELogGroup(a: Addr,
                              t0: Topic) | SigGroup(t0: Topic) | TValPrefix(v: Topic) | TValGroup(v: Topic, t0: Topic)
  {
    predicate Covers(g: Group) {
      match this
      case ELogPrefix(a) => g.ELog? && g.a == a
      case ELogGroup(a, t0) => g == ELog(a, t0)
      case SigGroup(t0) => g == Sig(t0)
      case TValPrefix(v) => g.TVal? && g.v == v
      case TValGroup(v, t0) => g == TVal(v, t0)
    }
  }

  /** A posting under p for the transaction, with the bit set when one is asked. */
  ghost predicate Has(posts: seq<Posting>, p: Prefix, t: nat, bit: nat) {
    exists i {:trigger posts[i]} ::
      0 <= i < |posts| && posts[i].txnum == t && p.Covers(posts[i].group) && (bit == 0 || bit in posts[i].bits)
  }

  /** The rows one log must have left. */
  ghost predicate Filed(posts: seq<Posting>, c: Chain, t: nat, l: Log) {
    && Has(posts, ELogGroup(l.addr, c.Topic0(l)), t, 0)
    && (l.topics != [] ==> Has(posts, SigGroup(l.topics[0]), t, 0))
    && (forall k {:trigger l.topics[k]} :: 1 <= k <= 3 && k < |l.topics| ==>
          Has(posts, TValGroup(l.topics[k], l.topics[0]), t, k))
  }

  ghost predicate FiledTx(posts: seq<Posting>, c: Chain, t: nat, logs: seq<Log>) {
    forall j {:trigger logs[j]} :: 0 <= j < |logs| ==> Filed(posts, c, t, logs[j])
  }

  ghost predicate FiledBlock(posts: seq<Posting>, c: Chain, first: nat, b: Block) {
    forall i {:trigger b[i]} :: 0 <= i < |b| ==> FiledTx(posts, c, first + i, b[i])
  }

  /** Every transaction of the chain is indexed. */
  ghost predicate Complete(posts: seq<Posting>, c: Chain) {
    forall n {:trigger FiledAt(posts, c, n)} :: 1 <= n <= |c.blocks| ==> FiledAt(posts, c, n)
  }

  ghost predicate FiledAt(posts: seq<Posting>, c: Chain, n: nat)
    requires 1 <= n <= |c.blocks|
  {
    FiledBlock(posts, c, c.First(n), c.At(n))
  }

  /** The log puts this group, or this position of it, in the index. */
  predicate Gives(c: Chain, l: Log, g: Group, bit: nat) {
    match g
    case ELog(a, t0) => l.addr == a && c.Topic0(l) == t0
    case Sig(t0) => l.topics != [] && l.topics[0] == t0
    case TVal(v, t0) => 1 <= bit < |l.topics| && l.topics[bit] == v && l.topics[0] == t0
  }

  ghost predicate SomeGives(c: Chain, logs: seq<Log>, g: Group, bit: nat) {
    exists j {:trigger logs[j]} :: 0 <= j < |logs| && Gives(c, logs[j], g, bit)
  }

  /** Every position of the row comes from a log of the transaction. */
  ghost predicate Given(c: Chain, logs: seq<Log>, g: Group, bits: set<nat>) {
    if g.TVal? then
      forall b {:trigger b in bits} :: b in bits ==> SomeGives(c, logs, g, b)
    else
      SomeGives(c, logs, g, 0)
  }

  ghost predicate GivenAt(c: Chain, n: nat, r: Posting)
    requires 1 <= n <= |c.blocks|
  {
    c.First(n) <= r.txnum < c.First(n) + |c.At(n)| && Given(c, c.At(n)[r.txnum - c.First(n)], r.group, r.bits)
  }

  ghost predicate RowGiven(c: Chain, r: Posting) {
    exists n {:trigger GivenAt(c, n, r)} :: 1 <= n <= |c.blocks| && GivenAt(c, n, r)
  }

  /** No row is there that no transaction's logs gave. */
  ghost predicate Grounded(posts: seq<Posting>, c: Chain) {
    forall i {:trigger posts[i]} :: 0 <= i < |posts| ==> RowGiven(c, posts[i])
  }

  /** The index holds every log's rows and nothing else. */
  ghost predicate Indexed(posts: seq<Posting>, c: Chain) { Complete(posts, c) && Grounded(posts, c) }

  lemma HasMore(posts: seq<Posting>, more: seq<Posting>, p: Prefix, t: nat, bit: nat)
    requires Has(posts, p, t, bit) || Has(more, p, t, bit)
    ensures Has(posts + more, p, t, bit)
  {
    if i :| 0 <= i < |posts| && posts[i].txnum == t && p.Covers(posts[i].group) && (bit == 0 || bit in posts[i].bits) {
      assert (posts + more)[i] == posts[i];
    } else {
      var i :| 0 <= i < |more| && more[i].txnum == t && p.Covers(more[i].group) && (bit == 0 || bit in more[i].bits);
      assert (posts + more)[|posts| + i] == more[i];
    }
  }

  /** A group implies its one-component prefix. */
  lemma HasWider(posts: seq<Posting>, p: Prefix, q: Prefix, t: nat, bit: nat)
    requires Has(posts, p, t, bit) && forall g :: p.Covers(g) ==> q.Covers(g)
    ensures Has(posts, q, t, bit)
  {
    var i :| 0 <= i < |posts| && posts[i].txnum == t && p.Covers(posts[i].group) && (bit == 0 || bit in posts[i].bits);
    assert q.Covers(posts[i].group);
  }

  // ------------------------------------------------------------- the writer

  type Marks = map<Group, set<nat>>

  ghost predicate Marked(post: Marks, g: Group, bit: nat) { g in post && (bit == 0 || bit in post[g]) }

  ghost predicate Grows(post: Marks, post': Marks) {
    forall g {:trigger g in post'} :: g in post ==> g in post' && post[g] <= post'[g]
  }

  ghost predicate MarkedLog(post: Marks, c: Chain, l: Log) {
    && Marked(post, ELog(l.addr, c.Topic0(l)), 0)
    && (l.topics != [] ==> Marked(post, Sig(l.topics[0]), 0))
    && (forall k {:trigger l.topics[k]} :: 1 <= k <= 3 && k < |l.topics| ==>
          Marked(post, TVal(l.topics[k], l.topics[0]), k))
  }

  function Mark(post: Marks, g: Group, bits: set<nat>): (post': Marks)
    ensures Grows(post, post') && g in post' && bits <= post'[g]
  {
    post[g := if g in post then post[g] + bits else bits]
  }

  lemma MarkedStays(post: Marks, post': Marks, c: Chain, l: Log)
    requires MarkedLog(post, c, l) && Grows(post, post')
    ensures MarkedLog(post', c, l)
  {
    MarkStays(post, post', ELog(l.addr, c.Topic0(l)), 0);
    if l.topics != [] { MarkStays(post, post', Sig(l.topics[0]), 0); }
    forall k {:trigger l.topics[k]} | 1 <= k <= 3 && k < |l.topics|
      ensures Marked(post', TVal(l.topics[k], l.topics[0]), k)
    {
      MarkStays(post, post', TVal(l.topics[k], l.topics[0]), k);
    }
  }

  lemma MarkStays(post: Marks, post': Marks, g: Group, bit: nat)
    requires Marked(post, g, bit) && Grows(post, post')
    ensures Marked(post', g, bit)
  {
    assert g in post';
  }

  /** Every mark comes from one of the logs. */
  ghost predicate MarksGiven(post: Marks, c: Chain, logs: seq<Log>) {
    forall g {:trigger g in post} :: g in post ==> Given(c, logs, g, post[g])
  }

  lemma SomeGivesMore(c: Chain, logs: seq<Log>, l: Log, g: Group, bit: nat)
    requires SomeGives(c, logs, g, bit) || Gives(c, l, g, bit)
    ensures SomeGives(c, logs + [l], g, bit)
  {
    if SomeGives(c, logs, g, bit) {
      var j :| 0 <= j < |logs| && Gives(c, logs[j], g, bit);
      assert (logs + [l])[j] == logs[j];
    } else {
      assert (logs + [l])[|logs|] == l;
    }
  }

  lemma GivenMore(c: Chain, logs: seq<Log>, l: Log, g: Group, bits: set<nat>)
    requires Given(c, logs, g, bits)
    ensures Given(c, logs + [l], g, bits)
  {
    if g.TVal? {
      forall b {:trigger b in bits} | b in bits
        ensures SomeGives(c, logs + [l], g, b)
      {
        SomeGivesMore(c, logs, l, g, b);
      }
    } else {
      SomeGivesMore(c, logs, l, g, 0);
    }
  }

  /** One more mark that the last log gives. */
  lemma MarkGiven(post: Marks, c: Chain, logs: seq<Log>, l: Log, g: Group, bit: nat)
    requires MarksGiven(post, c, logs + [l]) && Gives(c, l, g, bit) && (g.TVal? ==> bit > 0)
    ensures MarksGiven(Mark(post, g, if bit > 0 then {bit} else {}), c, logs + [l])
  {
    SomeGivesMore(c, logs, l, g, bit);
    if !g.TVal? { SomeGivesMore(c, logs, l, g, 0); }
  }

  /** logPostings: one log's groups, its topic positions or-ed in; every mark is one
      the logs so far give. */
  method LogPostings(post: Marks, c: Chain, l: Log, ghost before: seq<Log>) returns (post': Marks)
    requires MarksGiven(post, c, before)
    ensures Grows(post, post') && MarkedLog(post', c, l) && MarksGiven(post', c, before + [l])
  {
    post' := post;
    forall g {:trigger g in post} | g in post
      ensures Given(c, before + [l], g, post[g])
    {
      GivenMore(c, before, l, g, post[g]);
    }
    if |l.topics| > 0 {
      MarkGiven(post', c, before, l, Sig(l.topics[0]), 0);
      post' := Mark(post', Sig(l.topics[0]), {});
    }
    MarkGiven(post', c, before, l, ELog(l.addr, c.Topic0(l)), 0);
    post' := Mark(post', ELog(l.addr, c.Topic0(l)), {});
    var i := 1;
    while i < |l.topics| && i <= 3
      invariant 1 <= i <= 4 && Grows(post, post') && MarksGiven(post', c, before + [l])
      invariant Marked(post', ELog(l.addr, c.Topic0(l)), 0) && (l.topics != [] ==> Marked(post', Sig(l.topics[0]), 0))
      invariant forall k {:trigger l.topics[k]} :: 1 <= k < i && k < |l.topics| ==>
                  Marked(post', TVal(l.topics[k], l.topics[0]), k)
    {
      MarkGiven(post', c, before, l, TVal(l.topics[i], l.topics[0]), i);
      var next := Mark(post', TVal(l.topics[i], l.topics[0]), {i});
      GrowsTwice(post, post', next);
      post', i := next, i + 1;
    }
  }

  lemma GrowsTwice(a: Marks, b: Marks, c: Marks)
    requires Grows(a, b) && Grows(b, c)
    ensures Grows(a, c)
  {
    forall g {:trigger g in c} | g in a ensures g in c && a[g] <= c[g] { assert g in b; }
  }

  /** The rows of one transaction. */
  method FileTx(c: Chain, t: nat, logs: seq<Log>) returns (rows: seq<Posting>)
    ensures FiledTx(rows, c, t, logs)
    ensures forall i {:trigger rows[i]} :: 0 <= i < |rows| ==>
              rows[i].txnum == t && Given(c, logs, rows[i].group, rows[i].bits)
  {
    var post: Marks := map[];
    for j := 0 to |logs|
      invariant MarksGiven(post, c, logs[..j])
      invariant forall x {:trigger logs[x]} :: 0 <= x < j ==> MarkedLog(post, c, logs[x])
    {
      var next := LogPostings(post, c, logs[j], logs[..j]);
      assert logs[..j] + [logs[j]] == logs[..j + 1];
      forall x {:trigger logs[x]} | 0 <= x < j
        ensures MarkedLog(next, c, logs[x])
      {
        MarkedStays(post, next, c, logs[x]);
      }
      post := next;
    }
    assert logs[..|logs|] == logs;
    rows := Rows(post, t);
    forall j {:trigger logs[j]} | 0 <= j < |logs|
      ensures Filed(rows, c, t, logs[j])
    {
      FiledFromMarks(rows, post, c, t, logs[j]);
    }
  }

  ghost predicate RowsOf(rows: seq<Posting>, post: Marks, t: nat) {
    forall g {:trigger g in post} :: g in post ==> Posting(g, t, post[g]) in rows
  }

  method Rows(post: Marks, t: nat) returns (rows: seq<Posting>)
    ensures RowsOf(rows, post, t)
    ensures forall i {:trigger rows[i]} :: 0 <= i < |rows| ==>
              rows[i].group in post && rows[i] == Posting(rows[i].group, t, post[rows[i].group])
  {
    rows := [];
    var todo := post.Keys;
    while todo != {}
      invariant todo <= post.Keys
      invariant forall g {:trigger g in post} :: g in post && g !in todo ==> Posting(g, t, post[g]) in rows
      invariant forall i {:trigger rows[i]} :: 0 <= i < |rows| ==>
                  rows[i].group in post && rows[i] == Posting(rows[i].group, t, post[rows[i].group])
      decreases todo
    {
      var g :| g in todo;
      rows := rows + [Posting(g, t, post[g])];
      todo := todo - {g};
    }
  }

  lemma FiledFromMarks(rows: seq<Posting>, post: Marks, c: Chain, t: nat, l: Log)
    requires RowsOf(rows, post, t) && MarkedLog(post, c, l)
    ensures Filed(rows, c, t, l)
  {
    HasRow(rows, post, t, ELog(l.addr, c.Topic0(l)), ELogGroup(l.addr, c.Topic0(l)), 0);
    if l.topics != [] { HasRow(rows, post, t, Sig(l.topics[0]), SigGroup(l.topics[0]), 0); }
    forall k {:trigger l.topics[k]} | 1 <= k <= 3 && k < |l.topics|
      ensures Has(rows, TValGroup(l.topics[k], l.topics[0]), t, k)
    {
      HasRow(rows, post, t, TVal(l.topics[k], l.topics[0]), TValGroup(l.topics[k], l.topics[0]), k);
    }
  }

  lemma HasRow(rows: seq<Posting>, post: Marks, t: nat, g: Group, p: Prefix, bit: nat)
    requires RowsOf(rows, post, t) && Marked(post, g, bit) && p.Covers(g)
    ensures Has(rows, p, t, bit)
  {
    var i :| 0 <= i < |rows| && rows[i] == Posting(g, t, post[g]);
  }

  lemma FiledMore(posts: seq<Posting>, more: seq<Posting>, c: Chain, t: nat, l: Log)
    requires Filed(posts, c, t, l) || Filed(more, c, t, l)
    ensures Filed(posts + more, c, t, l)
  {
    HasMore(posts, more, ELogGroup(l.addr, c.Topic0(l)), t, 0);
    if l.topics != [] { HasMore(posts, more, SigGroup(l.topics[0]), t, 0); }
    forall k {:trigger l.topics[k]} | 1 <= k <= 3 && k < |l.topics|
      ensures Has(posts + more, TValGroup(l.topics[k], l.topics[0]), t, k)
    {
      HasMore(posts, more, TValGroup(l.topics[k], l.topics[0]), t, k);
    }
  }

  lemma FiledTxMore(posts: seq<Posting>, more: seq<Posting>, c: Chain, t: nat, logs: seq<Log>)
    requires FiledTx(posts, c, t, logs) || FiledTx(more, c, t, logs)
    ensures FiledTx(posts + more, c, t, logs)
  {
    forall j {:trigger logs[j]} | 0 <= j < |logs| ensures Filed(posts + more, c, t, logs[j]) {
      FiledMore(posts, more, c, t, logs[j]);
    }
  }

  ghost predicate GivenIn(c: Chain, first: nat, b: Block, r: Posting) {
    first <= r.txnum < first + |b| && Given(c, b[r.txnum - first], r.group, r.bits)
  }

  /** add: a block's transactions one after another, from its first TxNum. */
  method FileBlock(posts: seq<Posting>, c: Chain, first: nat, b: Block) returns (posts': seq<Posting>)
    ensures posts <= posts' && FiledBlock(posts', c, first, b)
    ensures forall i {:trigger posts'[i]} :: |posts| <= i < |posts'| ==> GivenIn(c, first, b, posts'[i])
  {
    posts' := posts;
    for i := 0 to |b|
      invariant posts <= posts' && forall x {:trigger b[x]} :: 0 <= x < i ==> FiledTx(posts', c, first + x, b[x])
      invariant forall x {:trigger posts'[x]} :: |posts| <= x < |posts'| ==> GivenIn(c, first, b, posts'[x])
    {
      var rows := FileTx(c, first + i, b[i]);
      forall x {:trigger b[x]} | 0 <= x <= i ensures FiledTx(posts' + rows, c, first + x, b[x]) {
        FiledTxMore(posts', rows, c, first + x, b[x]);
      }
      posts' := posts' + rows;
    }
  }

  lemma FiledBlockMore(posts: seq<Posting>, posts': seq<Posting>, c: Chain, first: nat, b: Block)
    requires FiledBlock(posts, c, first, b) && posts <= posts'
    ensures FiledBlock(posts', c, first, b)
  {
    var more := posts'[|posts|..];
    assert posts' == posts + more;
    forall i {:trigger b[i]} | 0 <= i < |b| ensures FiledTx(posts', c, first + i, b[i]) {
      FiledTxMore(posts, more, c, first + i, b[i]);
    }
  }

  /** Writing every block in height order leaves the rows of every log, and no other. */
  method FileChain(c: Chain) returns (posts: seq<Posting>)
    ensures Indexed(posts, c)
  {
    posts := [];
    for n := 1 to |c.blocks| + 1
      invariant forall m {:trigger FiledAt(posts, c, m)} :: 1 <= m < n ==> FiledAt(posts, c, m)
      invariant Grounded(posts, c)
    {
      var next := FileBlock(posts, c, c.First(n), c.At(n));
      forall i {:trigger next[i]} | 0 <= i < |next| ensures RowGiven(c, next[i]) {
        if i < |posts| { assert next[i] == posts[i]; } else { assert GivenAt(c, n, next[i]); }
      }
      forall m {:trigger FiledAt(next, c, m)} | 1 <= m < n ensures FiledAt(next, c, m) {
        assert FiledAt(posts, c, m);
        FiledBlockMore(posts, next, c, c.First(m), c.At(m));
      }
      posts := next;
    }
  }

  // ------------------------------------------------------------- candidates

  /** collectPostings: the transactions of [lo, hi] under p, those with the bit. */
  method Collect(posts: seq<Posting>, p: Prefix, lo: nat, hi: int, bit: nat, found: set<nat>) returns (found': set<nat>)
    ensures forall t {:trigger t in found'} :: t in found' <==> t in found || (lo <= t <= hi && Has(posts, p, t, bit))
  {
    found' := found;
    assert posts[..0] == [];
    for i := 0 to |posts|
      invariant forall t {:trigger t in found'} ::
                  t in found' <==> t in found || (lo <= t <= hi && Has(posts[..i], p, t, bit))
    {
      var r := posts[i];
      forall t: nat
        ensures Has(posts[..i + 1], p, t, bit) <==>
                  Has(posts[..i], p, t, bit) || (r.txnum == t && p.Covers(r.group) && (bit == 0 || bit in r.bits))
      {
        HasLast(posts, i, p, t, bit);
      }
      if lo <= r.txnum <= hi && p.Covers(r.group) && (bit == 0 || bit in r.bits) { found' := found' + {r.txnum}; }
    }
    assert posts[..|posts|] == posts;
  }

  lemma HasLast(posts: seq<Posting>, i: nat, p: Prefix, t: nat, bit: nat)
    requires i < |posts|
    ensures var r := posts[i];
            Has(posts[..i + 1], p, t, bit) <==>
              Has(posts[..i], p, t, bit) || (r.txnum == t && p.Covers(r.group) && (bit == 0 || bit in r.bits))
  {
    if Has(posts[..i], p, t, bit) {
      HasMore(posts[..i], [posts[i]], p, t, bit);
      assert posts[..i] + [posts[i]] == posts[..i + 1];
    }
    if Has(posts[..i + 1], p, t, bit) {
      var j :| && 0 <= j < |posts[..i + 1]| && posts[..i + 1][j].txnum == t && p.Covers(posts[..i + 1][j].group)
               && (bit == 0 || bit in posts[..i + 1][j].bits);
      if j < i { assert posts[..i][j] == posts[j]; }
    }
    var r := posts[i];
    if r.txnum == t && p.Covers(r.group) && (bit == 0 || bit in r.bits) { assert posts[..i + 1][i] == r; }
  }

  function AddrPrefix(a: Addr, topic0: Option<Topic>): Prefix {
    if topic0.Some? then ELogGroup(a, topic0.value) else ELogPrefix(a)
  }

  function TopicPrefix(i: nat, t: Topic, topic0: Option<Topic>): Prefix {
    if i == 0 then SigGroup(t) else if topic0.Some? then TValGroup(t, topic0.value) else TValPrefix(t)
  }

  /** A single alternative for topic 0 narrows every other dimension. */
  function Topic0Of(topics: Topics): Option<Topic> {
    if |topics| > 0 && topics[0].Some? && |topics[0].value| == 1 then Some(topics[0].value[0]) else None
  }

  /** Posted under one of the addresses, narrowed or not. */
  ghost predicate AnyAddr(posts: seq<Posting>, addrs: seq<Addr>, topic0: Option<Topic>, t: nat) {
    exists x {:trigger addrs[x]} :: 0 <= x < |addrs| && Has(posts, AddrPrefix(addrs[x], topic0), t, 0)
  }

  /** Posted under one of a position's alternatives, with the position's bit. */
  ghost predicate AnyTopic(posts: seq<Posting>, k: nat, want: seq<Topic>, topic0: Option<Topic>, t: nat) {
    exists x {:trigger want[x]} :: 0 <= x < |want| && Has(posts, TopicPrefix(k, want[x], topic0), t, k)
  }

  method AddrSet(posts: seq<Posting>, addrs: seq<Addr>, topic0: Option<Topic>, lo: nat, hi: int)
    returns (found: set<nat>)
    ensures forall t {:trigger t in found} :: t in found <==> lo <= t <= hi && AnyAddr(posts, addrs, topic0, t)
  {
    found := {};
    for i := 0 to |addrs|
      invariant forall t {:trigger t in found} ::
        t in found <==> lo <= t <= hi && exists x {:trigger addrs[x]} ::
          0 <= x < i && Has(posts, AddrPrefix(addrs[x], topic0), t, 0)
    {
      found := Collect(posts, AddrPrefix(addrs[i], topic0), lo, hi, 0, found);
    }
  }

  method TopicSet(posts: seq<Posting>, k: nat, want: seq<Topic>, topic0: Option<Topic>, lo: nat, hi: int)
    returns (found: set<nat>)
    ensures forall t {:trigger t in found} :: t in found <==> lo <= t <= hi && AnyTopic(posts, k, want, topic0, t)
  {
    found := {};
    for i := 0 to |want|
      invariant forall t {:trigger t in found} ::
        t in found <==> lo <= t <= hi && exists x {:trigger want[x]} ::
          0 <= x < i && Has(posts, TopicPrefix(k, want[x], topic0), t, k)
    {
      found := Collect(posts, TopicPrefix(k, want[i], topic0), lo, hi, k, found);
    }
  }

  /** A filter with nothing the index could narrow. */
  predicate Unindexed(addrs: seq<Addr>, topics: Topics) {
    addrs == [] && forall k :: 0 <= k < |topics| && k <= 3 ==> topics[k].None?
  }

  /** Posted for every dimension of the filter. */
  ghost predicate Posted(posts: seq<Posting>, addrs: seq<Addr>, topics: Topics, n: nat, t: nat)
    requires n <= |topics|
  {
    && (addrs != [] ==> AnyAddr(posts, addrs, Topic0Of(topics), t))
    && (forall k {:trigger topics[k]} :: 0 <= k < n && k <= 3 && topics[k].Some? ==>
          AnyTopic(posts, k, topics[k].value, Topic0Of(topics), t))
  }

  ghost predicate InSets(sets: seq<set<nat>>, t: nat) {
    forall i {:trigger sets[i]} :: 0 <= i < |sets| ==> t in sets[i]
  }

  lemma InSetsMore(sets: seq<set<nat>>, found: set<nat>, t: nat)
    ensures InSets(sets + [found], t) <==> InSets(sets, t) && t in found
  {
    assert (sets + [found])[|sets|] == found;
    if InSets(sets + [found], t) {
      forall i {:trigger sets[i]} | 0 <= i < |sets| ensures t in sets[i] { assert (sets + [found])[i] == sets[i]; }
    }
  }

  /** One posting set per dimension of the filter; a transaction is in all of them
      exactly when it is in the range and posted for every dimension. */
  method PostingSets(posts: seq<Posting>, addrs: seq<Addr>, topics: Topics, lo: nat, hi: int)
    returns (sets: seq<set<nat>>)
    ensures sets == [] <==> Unindexed(addrs, topics)
    ensures sets != [] ==> forall t: nat {:trigger InSets(sets, t)} ::
              InSets(sets, t) <==> lo <= t <= hi && Posted(posts, addrs, topics, |topics|, t)
  {
    sets := [];
    var topic0 := Topic0Of(topics);
    if |addrs| > 0 {
      var found := AddrSet(posts, addrs, topic0, lo, hi);
      sets := [found];
      forall t: nat ensures InSets(sets, t) <==> t in found { assert sets[0] == found; }
    }
    for k := 0 to |topics|
      invariant sets == [] <==> addrs == [] && forall x :: 0 <= x < k && x <= 3 ==> topics[x].None?
      invariant sets != [] ==> forall t: nat {:trigger InSets(sets, t)} ::
                  InSets(sets, t) <==> lo <= t <= hi && Posted(posts, addrs, topics, k, t)
    {
      if topics[k].Some? && k <= 3 {
        var found := TopicSet(posts, k, topics[k].value, topic0, lo, hi);
        forall t: nat ensures InSets(sets + [found], t) <==> lo <= t <= hi && Posted(posts, addrs, topics, k + 1, t) {
          InSetsMore(sets, found, t);
          PostedMore(posts, addrs, topics, k, t);
          if sets == [] { assert Posted(posts, addrs, topics, k, t); }
        }
        sets := sets + [found];
      }
    }
  }

  lemma PostedMore(posts: seq<Posting>, addrs: seq<Addr>, topics: Topics, k: nat, t: nat)
    requires k < |topics|
    ensures Posted(posts, addrs, topics, k + 1, t) <==>
            && Posted(posts, addrs, topics, k, t)
            && (k <= 3 && topics[k].Some? ==> AnyTopic(posts, k, topics[k].value, Topic0Of(topics), t))
  {
  }

  // What the postings of a transaction say about its logs.

  /** Some log has one of the addresses, under the narrowing topic 0 if there is one. */
  ghost predicate MeetsAddr(c: Chain, logs: seq<Log>, addrs: seq<Addr>, topic0: Option<Topic>) {
    exists j {:trigger logs[j]} ::
      0 <= j < |logs| && logs[j].addr in addrs && (topic0.Some? ==> c.Topic0(logs[j]) == topic0.value)
  }

  /** Some log has one of the alternatives at position k, likewise. */
  ghost predicate MeetsTopic(logs: seq<Log>, k: nat, want: seq<Topic>, topic0: Option<Topic>) {
    exists j {:trigger logs[j]} :: 0 <= j < |logs| && k < |logs[j].topics| && logs[j].topics[k] in want
                                   && (k > 0 && topic0.Some? ==> logs[j].topics[0] == topic0.value)
  }

  /** Each dimension of the filter is met by a log, not always the same one. */
  ghost predicate Meets(c: Chain, logs: seq<Log>, addrs: seq<Addr>, topics: Topics) {
    && (addrs != [] ==> MeetsAddr(c, logs, addrs, Topic0Of(topics)))
    && (forall k {:trigger topics[k]} :: 0 <= k < |topics| && k <= 3 && topics[k].Some? ==>
          MeetsTopic(logs, k, topics[k].value, Topic0Of(topics)))
  }

  /** A row of the transaction is given by its logs. */
  lemma RowOf(posts: seq<Posting>, c: Chain, n: nat, t: nat, p: Prefix, bit: nat) returns (g: Group)
    requires Grounded(posts, c) && 1 <= n <= |c.blocks| && InBlock(c, n, t) && Has(posts, p, t, bit)
    ensures t - c.First(n) < |c.At(n)| && p.Covers(g)
    ensures SomeGives(c, c.At(n)[t - c.First(n)], g, if g.TVal? then bit else 0) || (g.TVal? && bit == 0)
  {
    var i :| 0 <= i < |posts| && posts[i].txnum == t && p.Covers(posts[i].group) && (bit == 0 || bit in posts[i].bits);
    g := posts[i].group;
    assert RowGiven(c, posts[i]);
    var m :| 1 <= m <= |c.blocks| && GivenAt(c, m, posts[i]);
    SameBlock(c, m, n, t);
  }

  lemma AddrIs(posts: seq<Posting>, c: Chain, n: nat, i: nat, addrs: seq<Addr>, topic0: Option<Topic>)
    requires Indexed(posts, c) && 1 <= n <= |c.blocks| && i < |c.At(n)|
    ensures AnyAddr(posts, addrs, topic0, c.First(n) + i) <==> MeetsAddr(c, c.At(n)[i], addrs, topic0)
  {
    var t, logs := c.First(n) + i, c.At(n)[i];
    assert InBlock(c, n, t);
    if AnyAddr(posts, addrs, topic0, t) {
      var x :| 0 <= x < |addrs| && Has(posts, AddrPrefix(addrs[x], topic0), t, 0);
      var g := RowOf(posts, c, n, t, AddrPrefix(addrs[x], topic0), 0);
      var j :| 0 <= j < |logs| && Gives(c, logs[j], g, 0);
      assert logs[j].addr in addrs;
    }
    if MeetsAddr(c, logs, addrs, topic0) {
      var j :| 0 <= j < |logs| && logs[j].addr in addrs && (topic0.Some? ==> c.Topic0(logs[j]) == topic0.value);
      var x :| 0 <= x < |addrs| && addrs[x] == logs[j].addr;
      LogFiled(posts, c, n, i, j);
      if topic0.None? { HasWider(posts, ELogGroup(addrs[x], c.Topic0(logs[j])), ELogPrefix(addrs[x]), t, 0); }
    }
  }

  lemma TopicIs(posts: seq<Posting>, c: Chain, n: nat, i: nat, k: nat, want: seq<Topic>, topic0: Option<Topic>)
    requires Indexed(posts, c) && 1 <= n <= |c.blocks| && i < |c.At(n)| && k <= 3
    ensures AnyTopic(posts, k, want, topic0, c.First(n) + i) <==> MeetsTopic(c.At(n)[i], k, want, topic0)
  {
    var t, logs := c.First(n) + i, c.At(n)[i];
    assert InBlock(c, n, t);
    if AnyTopic(posts, k, want, topic0, t) {
      var x :| 0 <= x < |want| && Has(posts, TopicPrefix(k, want[x], topic0), t, k);
      var g := RowOf(posts, c, n, t, TopicPrefix(k, want[x], topic0), k);
      var j :| 0 <= j < |logs| && Gives(c, logs[j], g, if g.TVal? then k else 0);
      assert logs[j].topics[k] in want;
    }
    if MeetsTopic(logs, k, want, topic0) {
      var j :| && 0 <= j < |logs| && k < |logs[j].topics| && logs[j].topics[k] in want
               && (k > 0 && topic0.Some? ==> logs[j].topics[0] == topic0.value);
      var l := logs[j];
      var x :| 0 <= x < |want| && want[x] == l.topics[k];
      LogFiled(posts, c, n, i, j);
      if k > 0 {
        assert Has(posts, TValGroup(l.topics[k], l.topics[0]), t, k);
        if topic0.None? { HasWider(posts, TValGroup(l.topics[k], l.topics[0]), TValPrefix(l.topics[k]), t, k); }
      }
    }
  }

  lemma LogFiled(posts: seq<Posting>, c: Chain, n: nat, i: nat, j: nat)
    requires Complete(posts, c) && 1 <= n <= |c.blocks| && i < |c.At(n)| && j < |c.At(n)[i]|
    ensures Filed(posts, c, c.First(n) + i, c.At(n)[i][j])
  {
    assert FiledAt(posts, c, n);
    assert FiledTx(posts, c, c.First(n) + i, c.At(n)[i]);
  }

  /** A transaction is posted for every dimension exactly when its logs meet each. */
  lemma PostedIsMeets(posts: seq<Posting>, c: Chain, n: nat, i: nat, addrs: seq<Addr>, topics: Topics)
    requires Indexed(posts, c) && 1 <= n <= |c.blocks| && i < |c.At(n)|
    ensures Posted(posts, addrs, topics, |topics|, c.First(n) + i) <==> Meets(c, c.At(n)[i], addrs, topics)
  {
    AddrIs(posts, c, n, i, addrs, Topic0Of(topics));
    forall k {:trigger topics[k]} | 0 <= k < |topics| && k <= 3 && topics[k].Some?
      ensures AnyTopic(posts, k, topics[k].value, Topic0Of(topics), c.First(n) + i) <==>
                MeetsTopic(c.At(n)[i], k, topics[k].value, Topic0Of(topics))
    {
      TopicIs(posts, c, n, i, k, topics[k].value, Topic0Of(topics));
    }
  }

  /** A posted TxNum is one of the block's transactions, not its spare slot. */
  lemma PostedIsTx(posts: seq<Posting>, c: Chain, n: nat, t: nat, addrs: seq<Addr>, topics: Topics)
    requires Grounded(posts, c) && 1 <= n <= |c.blocks| && InBlock(c, n, t)
    requires Posted(posts, addrs, topics, |topics|, t) && !Unindexed(addrs, topics)
    ensures t - c.First(n) < |c.At(n)|
  {
    if addrs != [] {
      var x :| 0 <= x < |addrs| && Has(posts, AddrPrefix(addrs[x], Topic0Of(topics)), t, 0);
      var _ := RowOf(posts, c, n, t, AddrPrefix(addrs[x], Topic0Of(topics)), 0);
    } else {
      var k :| 0 <= k < |topics| && k <= 3 && topics[k].Some?;
      assert AnyTopic(posts, k, topics[k].value, Topic0Of(topics), t);
      var x :| 0 <= x < |topics[k].value| && Has(posts, TopicPrefix(k, topics[k].value[x], Topic0Of(topics)), t, k);
      var _ := RowOf(posts, c, n, t, TopicPrefix(k, topics[k].value[x], Topic0Of(topics)), k);
    }
  }

  /** One matching log meets every dimension. */
  lemma MatchMeets(c: Chain, logs: seq<Log>, j: nat, addrs: seq<Addr>, topics: Topics)
    requires j < |logs| && Matches(logs[j], addrs, topics)
    ensures Meets(c, logs, addrs, topics)
  {
    var l := logs[j];
    if Topic0Of(topics).Some? { assert l.topics[0] in topics[0].value; }
    forall k {:trigger topics[k]} | 0 <= k < |topics| && k <= 3 && topics[k].Some?
      ensures MeetsTopic(logs, k, topics[k].value, Topic0Of(topics))
    {
      assert k < |l.topics| && l.topics[k] in topics[k].value;
    }
  }

  /** The smallest set drives the intersection. */
  method Smallest(sets: seq<set<nat>>) returns (i: nat)
    requires sets != []
    ensures i < |sets| && forall j :: 0 <= j < |sets| ==> |sets[i]| <= |sets[j]|
  {
    i := 0;
    for j := 1 to |sets|
      invariant i < |sets| && forall x :: 0 <= x < j ==> |sets[i]| <= |sets[x]|
    {
      if |sets[j]| < |sets[i]| { i := j; }
    }
  }

  method InAll(sets: seq<set<nat>>, t: nat) returns (all: bool)
    ensures all <==> InSets(sets, t)
  {
    all := true;
    for i := 0 to |sets|
      invariant all <==> forall x :: 0 <= x < i ==> t in sets[x]
    {
      all := all && t in sets[i];
    }
  }

  lemma FirstMonotone(c: Chain, m: nat, n: nat)
    requires 1 <= m <= n <= |c.blocks| + 1
    ensures c.First(m) <= c.First(n)
  {
    if m < n { FirstGrows(c, m, n); }
  }

  /** HeightOfTx: the block whose slots hold the TxNum, by binary search. */
  method HeightOfTx(c: Chain, t: nat) returns (n: nat, ok: bool)
    ensures ok <==> t < c.First(|c.blocks| + 1) && c.blocks != []
    ensures ok ==> 1 <= n <= |c.blocks| && InBlock(c, n, t)
  {
    n := 0;
    ok := c.blocks != [] && t < c.First(|c.blocks| + 1);
    if !ok { return; }
    var lo, hi := 1, |c.blocks|;
    while lo < hi
      invariant 1 <= lo <= hi <= |c.blocks| && c.First(lo) <= t < c.First(hi + 1)
      decreases hi - lo
    {
      var mid := (lo + hi + 1) / 2;
      if c.First(mid) <= t { lo := mid; } else { hi := mid - 1; }
    }
    n := lo;
  }

  /** txRangeOf: the TxNums of blocks from..to; empty as lo > hi. */
  method TxRangeOf(c: Chain, from: nat, last: nat) returns (lo: nat, hi: int)
    requires 1 <= from <= last <= |c.blocks|
    ensures forall n, i {:trigger c.TxNum(n, i)} :: 1 <= n <= |c.blocks| && 0 <= i < |c.At(n)| ==>
              (lo <= c.TxNum(n, i) <= hi <==> from <= n <= last)
  {
    var first, count := c.First(last), |c.At(last)|;
    lo := c.First(from);
    if count == 0 {
      if first == 0 { lo, hi := 1, 0; } else { hi := first - 1; }
    } else {
      hi := first + count - 1;
    }
    forall n, i {:trigger c.TxNum(n, i)} | 1 <= n <= |c.blocks| && 0 <= i < |c.At(n)|
      ensures lo <= c.TxNum(n, i) <= hi <==> from <= n <= last
    {
      RangeHolds(c, from, last, n, i);
    }
  }

  lemma RangeHolds(c: Chain, from: nat, last: nat, n: nat, i: nat)
    requires 1 <= from <= last <= |c.blocks| && 1 <= n <= |c.blocks| && i < |c.At(n)|
    ensures c.First(from) <= c.First(n) + i < c.First(last) + |c.At(last)| <==> from <= n <= last
    ensures from <= n <= last && |c.At(last)| == 0 ==> c.First(last) > 0
  {
    if n < from { FirstGrows(c, n, from); } else { FirstMonotone(c, from, n); }
    if n < last { FirstGrows(c, n, last); }
    if last < n { FirstGrows(c, last, n); }
  }

  /** Block n has a log that matches. */
  ghost predicate Wanted(c: Chain, n: nat, addrs: seq<Addr>, topics: Topics)
    requires 1 <= n <= |c.blocks|
  {
    exists i, j {:trigger c.At(n)[i][j]} ::
      0 <= i < |c.At(n)| && 0 <= j < |c.At(n)[i]| && Matches(c.At(n)[i][j], addrs, topics)
  }

  /** The TxNum is one of block n's slots. */
  predicate InBlock(c: Chain, n: nat, t: nat)
    requires 1 <= n <= |c.blocks|
  {
    c.First(n) <= t < c.First(n + 1)
  }

  /** A TxNum in two blocks' slots: there is one block. */
  lemma SameBlock(c: Chain, m: nat, n: nat, t: nat)
    requires 1 <= m <= |c.blocks| && 1 <= n <= |c.blocks|
    requires InBlock(c, m, t) && InBlock(c, n, t)
    ensures m == n
  {
    if m < n { FirstMonotone(c, m + 1, n); }
    if n < m { FirstMonotone(c, n + 1, m); }
  }

  /** Some TxNum of the block is in every set. */
  ghost predicate Common(c: Chain, sets: seq<set<nat>>, n: nat)
    requires 1 <= n <= |c.blocks|
  {
    exists t {:trigger InBlock(c, n, t)} :: InBlock(c, n, t) && InSets(sets, t)
  }

  /** The intersection, mapped to the blocks of the range. */
  method Heights(c: Chain, sets: seq<set<nat>>, from: nat, last: nat) returns (hs: set<nat>)
    requires sets != [] && 1 <= from <= last <= |c.blocks|
    ensures forall n {:trigger n in hs} :: n in hs <==> from <= n <= last && Common(c, sets, n)
  {
    var k := Smallest(sets);
    hs := {};
    var todo := sets[k];
    while todo != {}
      invariant todo <= sets[k] && forall n {:trigger n in hs} :: n in hs ==> from <= n <= last && Common(c, sets, n)
      invariant forall n, t {:trigger InBlock(c, n, t)} ::
                  from <= n <= last && InBlock(c, n, t) && t !in todo && InSets(sets, t) ==> n in hs
      decreases todo
    {
      var t :| t in todo;
      var all := InAll(sets, t);
      if all {
        var n, ok := HeightOfTx(c, t);
        forall m | from <= m <= last && InBlock(c, m, t) ensures ok && m == n {
          FirstMonotone(c, m + 1, |c.blocks| + 1);
          SameBlock(c, m, n, t);
        }
        if ok && from <= n <= last { hs := hs + {n}; }
      }
      todo := todo - {t};
    }
  }

  ghost predicate Rising(hs: seq<nat>) { forall i, j :: 0 <= i < j < |hs| ==> hs[i] < hs[j] }

  /** The set's heights in ascending order. */
  method Sorted(hs: set<nat>, from: nat, last: nat) returns (out: seq<nat>)
    requires from <= last && forall h :: h in hs ==> from <= h <= last
    ensures Rising(out) && forall h :: h in out <==> h in hs
  {
    out := [];
    for n := from to last + 1
      invariant Rising(out) && forall h :: h in out <==> h in hs && h < n
    {
      assert forall i :: 0 <= i < |out| ==> out[i] in out;
      if n in hs { out := out + [n]; }
    }
  }

  method AllHeights(from: nat, last: nat) returns (out: seq<nat>)
    requires from <= last
    ensures Rising(out) && forall h :: h in out <==> from <= h <= last
  {
    out := [];
    for n := from to last + 1
      invariant |out| == n - from && forall i :: 0 <= i < |out| ==> out[i] == from + i
    {
      out := out + [n];
    }
    forall h | from <= h <= last ensures h in out { assert out[h - from] == h; }
  }

  /** Some transaction of the block meets each dimension. */
  ghost predicate BlockMeets(c: Chain, n: nat, addrs: seq<Addr>, topics: Topics)
    requires 1 <= n <= |c.blocks|
  {
    exists i {:trigger c.At(n)[i]} :: 0 <= i < |c.At(n)| && Meets(c, c.At(n)[i], addrs, topics)
  }

  lemma WantedMeets(c: Chain, n: nat, addrs: seq<Addr>, topics: Topics)
    requires 1 <= n <= |c.blocks| && Wanted(c, n, addrs, topics)
    ensures BlockMeets(c, n, addrs, topics)
  {
    var i, j :| 0 <= i < |c.At(n)| && 0 <= j < |c.At(n)[i]| && Matches(c.At(n)[i][j], addrs, topics);
    MatchMeets(c, c.At(n)[i], j, addrs, topics);
  }

  lemma CommonMeets(posts: seq<Posting>, c: Chain, n: nat, t: nat, addrs: seq<Addr>, topics: Topics)
    requires Indexed(posts, c) && 1 <= n <= |c.blocks| && !Unindexed(addrs, topics)
    requires InBlock(c, n, t) && Posted(posts, addrs, topics, |topics|, t)
    ensures BlockMeets(c, n, addrs, topics)
  {
    PostedIsTx(posts, c, n, t, addrs, topics);
    PostedIsMeets(posts, c, n, t - c.First(n), addrs, topics);
    assert Meets(c, c.At(n)[t - c.First(n)], addrs, topics);
  }

  lemma MeetsPosted(posts: seq<Posting>, c: Chain, n: nat, addrs: seq<Addr>, topics: Topics) returns (i: nat)
    requires Indexed(posts, c) && 1 <= n <= |c.blocks| && BlockMeets(c, n, addrs, topics)
    ensures i < |c.At(n)| && InBlock(c, n, c.TxNum(n, i)) && Posted(posts, addrs, topics, |topics|, c.TxNum(n, i))
  {
    i :| 0 <= i < |c.At(n)| && Meets(c, c.At(n)[i], addrs, topics);
    PostedIsMeets(posts, c, n, i, addrs, topics);
  }

  lemma CommonIsMeets(posts: seq<Posting>, c: Chain, sets: seq<set<nat>>, lo: nat, hi: int, n: nat, addrs: seq<Addr>,
                      topics: Topics)
    requires Indexed(posts, c) && 1 <= n <= |c.blocks| && !Unindexed(addrs, topics)
    requires forall t: nat {:trigger InSets(sets, t)} ::
               InSets(sets, t) <==> lo <= t <= hi && Posted(posts, addrs, topics, |topics|, t)
    requires forall i {:trigger c.TxNum(n, i)} :: 0 <= i < |c.At(n)| ==> lo <= c.TxNum(n, i) <= hi
    ensures Common(c, sets, n) <==> BlockMeets(c, n, addrs, topics)
  {
    if Common(c, sets, n) {
      var t :| InBlock(c, n, t) && InSets(sets, t);
      CommonMeets(posts, c, n, t, addrs, topics);
    }
    if BlockMeets(c, n, addrs, topics) {
      var i := MeetsPosted(posts, c, n, addrs, topics);
      assert InSets(sets, c.TxNum(n, i));
    }
  }

  /** logCandidates: the heights of the range, ascending, that have a transaction
      whose logs meet each dimension of the filter; all of them when no dimension is
      indexed. */
  method LogCandidates(posts: seq<Posting>, c: Chain, from: nat, last: nat, addrs: seq<Addr>, topics: Topics)
    returns (out: seq<nat>)
    requires Indexed(posts, c) && 1 <= from <= last <= |c.blocks|
    ensures Rising(out)
    ensures forall n {:trigger n in out} ::
              n in out <==> from <= n <= last && (Unindexed(addrs, topics) || BlockMeets(c, n, addrs, topics))
  {
    var lo, hi := TxRangeOf(c, from, last);
    var sets := PostingSets(posts, addrs, topics, lo, hi);
    if |sets| == 0 {
      out := AllHeights(from, last);
      return;
    }
    var hs := Heights(c, sets, from, last);
    forall n {:trigger n in hs} | from <= n <= last ensures n in hs <==> BlockMeets(c, n, addrs, topics) {
      CommonIsMeets(posts, c, sets, lo, hi, n, addrs, topics);
    }
    out := Sorted(hs, from, last);
  }

  // ----------------------------------------------------------------- the query

  function Keep(logs: seq<Log>, addrs: seq<Addr>, topics: Topics): seq<Log> {
    if logs == [] then [] else
    var l := logs[|logs| - 1];
    Keep(logs[..|logs| - 1], addrs, topics) + if Matches(l, addrs, topics) then [l] else []
  }

  /** All logs of a block, transaction by transaction. */
  function LogsOf(b: Block): seq<Log> {
    if b == [] then [] else LogsOf(b[..|b| - 1]) + b[|b| - 1]
  }

  /** The reference: every block of the range, filtered. */
  function Scan(c: Chain, from: nat, last: nat, addrs: seq<Addr>, topics: Topics): seq<Log>
    requires 1 <= from && last <= |c.blocks|
    decreases last
  {
    if last < from then [] else Scan(c, from, last - 1, addrs, topics) + Keep(LogsOf(c.At(last)), addrs, topics)
  }

  lemma {:induction false} KeepNone(logs: seq<Log>, addrs: seq<Addr>, topics: Topics)
    requires forall i :: 0 <= i < |logs| ==> !Matches(logs[i], addrs, topics)
    ensures Keep(logs, addrs, topics) == []
  {
    if logs != [] { KeepNone(logs[..|logs| - 1], addrs, topics); }
  }

  lemma {:induction false} LogsOfFrom(b: Block, k: nat)
    requires k < |LogsOf(b)|
    ensures exists i, j {:trigger b[i][j]} :: 0 <= i < |b| && 0 <= j < |b[i]| && b[i][j] == LogsOf(b)[k]
  {
    var n := |b| - 1;
    var before := LogsOf(b[..n]);
    if k < |before| {
      LogsOfFrom(b[..n], k);
      var i, j :| 0 <= i < n && 0 <= j < |b[..n][i]| && b[..n][i][j] == before[k];
      assert b[i][j] == LogsOf(b)[k];
    } else {
      assert b[n][k - |before|] == LogsOf(b)[k];
    }
  }

  /** A block without a matching log adds nothing to the scan. */
  lemma UnwantedIsEmpty(c: Chain, n: nat, addrs: seq<Addr>, topics: Topics)
    requires 1 <= n <= |c.blocks| && !Wanted(c, n, addrs, topics)
    ensures Keep(LogsOf(c.At(n)), addrs, topics) == []
  {
    var b := c.At(n);
    forall k | 0 <= k < |LogsOf(b)| ensures !Matches(LogsOf(b)[k], addrs, topics) {
      LogsOfFrom(b, k);
      var i, j :| 0 <= i < |b| && 0 <= j < |b[i]| && b[i][j] == LogsOf(b)[k];
      assert !Matches(c.At(n)[i][j], addrs, topics);
    }
    KeepNone(LogsOf(b), addrs, topics);
  }

  /** Skipping unwanted blocks skips nothing. */
  lemma {:induction false} ScanGap(c: Chain, from: nat, mid: nat, last: nat, addrs: seq<Addr>, topics: Topics)
    requires 1 <= from && mid <= last <= |c.blocks|
    requires forall n {:trigger Wanted(c, n, addrs, topics)} :: from <= n && mid < n <= last ==>
               !Wanted(c, n, addrs, topics)
    ensures Scan(c, from, last, addrs, topics) == Scan(c, from, mid, addrs, topics)
    decreases last
  {
    if mid < last && from <= last {
      UnwantedIsEmpty(c, last, addrs, topics);
      ScanGap(c, from, mid, last - 1, addrs, topics);
    }
  }

  /** Filter one block's logs onto the answer. */
  method AppendMatches(out: seq<Log>, logs: seq<Log>, addrs: seq<Addr>, topics: Topics) returns (out': seq<Log>)
    ensures out' == out + Keep(logs, addrs, topics)
  {
    out' := out;
    for i := 0 to |logs|
      invariant out' == out + Keep(logs[..i], addrs, topics)
    {
      DropDrop(logs, i);
      assert logs[..i + 1][..i] == logs[..i];
      var ok := LogMatches(logs[i], addrs, topics);
      if ok { out' := out' + [logs[i]]; }
    }
    assert logs[..|logs|] == logs;
  }

  /** runGetLogs: the same logs in the same order as scanning every block. */
  method RunGetLogs(posts: seq<Posting>, c: Chain, from: nat, last: nat, addrs: seq<Addr>, topics: Topics)
    returns (out: seq<Log>)
    requires Indexed(posts, c) && 1 <= from <= last <= |c.blocks|
    ensures out == Scan(c, from, last, addrs, topics)
  {
    var candidates := LogCandidates(posts, c, from, last, addrs, topics);
    forall n {:trigger Wanted(c, n, addrs, topics)} | from <= n <= last && Wanted(c, n, addrs, topics)
      ensures n in candidates
    {
      WantedMeets(c, n, addrs, topics);
    }
    out := [];
    ghost var done := from - 1;
    assert candidates[0..] == candidates && forall i :: 0 <= i < |candidates| ==> candidates[i] in candidates;
    for k := 0 to |candidates|
      invariant from - 1 <= done <= last && out == Scan(c, from, done, addrs, topics)
      invariant forall i :: k <= i < |candidates| ==> done < candidates[i]
      invariant Left(c, candidates[k..], done, last, addrs, topics)
    {
      var n := candidates[k];
      assert candidates[k] in candidates;
      NextCandidate(c, candidates, k, done, last, addrs, topics);
      ScanGap(c, from, done, n - 1, addrs, topics);
      out := AppendMatches(out, LogsOf(c.At(n)), addrs, topics);
      done := n;
    }
    ScanGap(c, from, done, last, addrs, topics);
  }

  /** Every wanted block above done is still among the candidates. */
  ghost predicate Left(c: Chain, hs: seq<nat>, done: nat, last: nat, addrs: seq<Addr>, topics: Topics)
    requires last <= |c.blocks|
  {
    forall n {:trigger Wanted(c, n, addrs, topics)} :: done < n <= last && Wanted(c, n, addrs, topics) ==> n in hs
  }

  lemma NextCandidate(c: Chain, hs: seq<nat>, k: nat, done: nat, last: nat, addrs: seq<Addr>, topics: Topics)
    requires Rising(hs) && k < |hs| && done < hs[k] <= last <= |c.blocks| && Left(c, hs[k..], done, last, addrs, topics)
    ensures forall n {:trigger Wanted(c, n, addrs, topics)} :: done < n < hs[k] ==> !Wanted(c, n, addrs, topics)
    ensures Left(c, hs[k + 1..], hs[k], last, addrs, topics)
  {
    forall n {:trigger Wanted(c, n, addrs, topics)} | done < n <= last && Wanted(c, n, addrs, topics)
      ensures n >= hs[k] && (n > hs[k] ==> n in hs[k + 1..])
    {
      var i :| 0 <= i < |hs[k..]| && hs[k..][i] == n;
      assert hs[k + i] == n;
      if i > 0 { assert hs[k + 1..][i - 1] == n; }
    }
  }
}
