/** exec/executor.go: block execution against a store that only appends and a
    Firewood whose commits may be lost from the end, and the walk-back that
    realigns them at start. Everything may stop at any durable step. */
module Executor {
  import opened Bytes

  type State(==, !new)
  type Root(==, !new)
  type Body(!new)

  /** A block as the executor sees it: the root and time its header claims,
      whether it carries no transactions, and the rest. */
  datatype Block = Block(root: Root, time: int, empty: bool, body: Body)

  /** The chain being executed: any blocks at all, whose headers may claim
      anything, and a deterministic execution that may refuse a block. apply takes
      the parent's time, as the VM does. leak is what a block's first transactions, that
      many, make of the state. */
  datatype Chain = Chain(genesis: State, genesisTime: int, blocks: nat -> Block,
                         apply: (State, int, Block) -> Option<State>,
                         leak: (State, int, Block, nat) -> State, root: State -> Root)
  {
    function RootAt(n: nat): Root { if n == 0 then root(genesis) else blocks(n).root }

    function TimeAt(n: nat): int { if n == 0 then genesisTime else blocks(n).time }

    /** Executing block n on s: an empty block that claims its parent's root is
        not run. */
    function Step(n: nat, s: State): Option<State>
      requires n > 0
    {
      if blocks(n).empty && blocks(n).root == RootAt(n - 1) then Some(s) else apply(s, TimeAt(n - 1), blocks(n))
    }

    /** Executing blocks m+1..n on s without interruption. */
    function Range(s: State, m: nat, n: nat): Option<State>
      decreases n
    {
      if n <= m then Some(s) else
      match Range(s, m, n - 1) case None => None case Some(t) => Step(n, t)
    }

    /** s is a state whose root is the one header n claims. */
    ghost predicate Matches(n: nat, s: State) { root(s) == RootAt(n) }

    /** Executing m+1..k turns s into t, and both have the roots claimed for them. */
    ghost predicate Ran(m: nat, s: State, k: nat, t: State) {
      Matches(m, s) && Range(s, m, k) == Some(t) && Matches(k, t)
    }

    /** Executing m+1..k on s succeeds and ends at the root header k claims. */
    ghost predicate Verifies(s: State, m: nat, k: nat) { Range(s, m, k).Some? && Matches(k, Range(s, m, k).value) }

    ghost predicate AllVerify(s: State, m: nat, end: nat) {
      forall k {:trigger Verifies(s, m, k)} :: m < k < end ==> Verifies(s, m, k)
    }

    /** Block n lies in a range that was executed whole, from a state with the
        root of the header before it to one with the root of its last header. */
    ghost predicate Covered(n: nat) {
      exists m: nat, k: nat, s, t :: m < n <= k && Ran(m, s, k, t)
    }
  }

  datatype Commit = Commit(height: nat, state: State)

  /** How an operation ends: well, with an I/O error or something missing, killed, on
      a block that does not verify, or on bisect's own last line. */
  datatype Status = Ok | Failed | Crashed | Refused(at: nat) | BatchBug

  /** A durable operation may fail or be killed. */
  method Durably() returns (st: Status)
    ensures st.Ok? || st.Failed? || st.Crashed?
  {
    var killed: bool, broken: bool := *, *;
    st := if killed then Crashed else if broken then Failed else Ok;
  }

  const WalkBackBudget: nat := 4096

  function WalkBackBudgetFor(commitEvery: nat): nat {
    if commitEvery > 1 then WalkBackBudget + 64 * commitEvery else WalkBackBudget
  }

  /** The store holds the chain's first blocks, and every commit is a state that a
      header at or below the store's head claims. */
  ghost predicate Claims(c: Chain, store: seq<Block>, fw: seq<Commit>) {
    && (forall i {:trigger store[i]} :: 0 <= i < |store| ==> store[i] == c.blocks(i + 1))
    && (forall i {:trigger fw[i]} :: 0 <= i < |fw| ==> fw[i].height <= |store| && c.Matches(fw[i].height, fw[i].state))
  }

  /** Every stored block is covered by a verified root. */
  ghost predicate Attested(c: Chain, store: seq<Block>) {
    forall n: nat {:trigger c.Covered(n)} :: 1 <= n <= |store| ==> c.Covered(n)
  }

  /** What a stop at any moment should leave. */
  ghost predicate Durable(c: Chain, store: seq<Block>, fw: seq<Commit>) { Claims(c, store, fw) && Attested(c, store) }

  /** Where memory stands. */
  datatype Head = Head(num: nat, root: Root, time: int)

  ghost predicate OnChain(c: Chain, h: Head) { h.root == c.RootAt(h.num) && h.time == c.TimeAt(h.num) }

  /** The executor's batch fields; work is what the open batch's trie holds. */
  datatype Batch = Batch(open: bool, dirty: bool, count: nat, startNum: nat, startRoot: Root,
                         startTime: int, buf: seq<Block>, work: State)

  /** A batch is open over the blocks after startNum up to the head, begun at a state
      with the root claimed there; own is what its blocks make of that state. */
  ghost predicate BatchAt(c: Chain, b: Batch, h: Head, live: State, own: State) {
    && b.open && b.startRoot == c.RootAt(b.startNum) && b.startTime == c.TimeAt(b.startNum)
    && c.Matches(b.startNum, live)
    && OnChain(c, h) && h.num == b.startNum + |b.buf| && b.count == |b.buf|
    && InBatch(c, b.startNum, live, b.buf, own, b.dirty)
  }

  class Node {
    const c: Chain
    const commitEvery: nat

    // On disk.
    var store: seq<Block> // store[i] is block i+1; block 0 is never stored
    var fw: seq<Commit> // Firewood's commits, oldest first

    // In memory.
    var live: State // Firewood's newest revision
    var head: Head
    var batch: Batch
    ghost var own: State // what the batch's own blocks have made of live
    ghost var fooled: bool // a batch was once accepted on the root of another state

    /** New, before reconcile: memory starts at genesis, over the disk as the last
        process left it. */
    constructor (c: Chain, commitEvery: nat, store: seq<Block>, fw: seq<Commit>, ghost fooled: bool)
      requires Claims(c, store, fw) && (!fooled ==> Attested(c, store))
      ensures this.c == c && this.commitEvery == commitEvery && this.store == store && this.fw == fw
      ensures Opened() && this.fooled == fooled
    {
      this.c, this.commitEvery, this.store, this.fw, this.fooled := c, commitEvery, store, fw, fooled;
      live := if fw == [] then c.genesis else fw[|fw| - 1].state;
      head, own := Head(0, c.root(c.genesis), c.genesisTime), c.genesis;
      batch := Batch(false, false, 0, 0, c.root(c.genesis), c.genesisTime, [], c.genesis);
    }

    /** The state in which reconcile is called. */
    ghost predicate Opened()
      reads this
    {
      && Saved() && !batch.open && batch.buf == [] && head.num == 0 && OnChain(c, head)
      && live == if fw == [] then c.genesis else fw[|fw| - 1].state
    }

    /** The disk is sound, unless it was fooled. */
    ghost predicate Saved()
      reads this
    {
      Claims(c, store, fw) && (!fooled ==> Attested(c, store))
    }

    /** No batch is open and memory agrees with Firewood and the chain. */
    ghost predicate Idle()
      reads this
    {
      && Saved() && !batch.open && batch.buf == [] && head.num <= |store|
      && OnChain(c, head) && c.Matches(head.num, live)
    }

    /** A batch is open over blocks batch.startNum+1..head.num, none of them written. */
    ghost predicate Pending()
      reads this
    {
      Saved() && batch.startNum <= |store| && BatchAt(c, batch, head, live, own)
    }

    /** And its trie holds the state its blocks make, nothing of a refused block's. */
    ghost predicate Batching()
      reads this
    {
      Pending() && batch.work == own
    }

    /** Or the trie also holds what a block that did not get in had drained into it. */
    ghost predicate Leaked()
      reads this
    {
      Pending() && LeakAt(c, head.num, own, batch.work)
    }

    /** The trie has the root the batch should end at, and the batch's blocks do not
        end at it. */
    ghost predicate Fooling()
      reads this
    {
      batch.dirty && c.Matches(head.num, batch.work) && !c.Matches(head.num, own)
    }

    /** The trie misses the root, and yet every block of the batch verifies. */
    ghost predicate Blamed()
      reads this
    {
      batch.dirty && !c.Matches(head.num, batch.work) && c.AllVerify(live, batch.startNum, head.num + 1)
    }

    ghost predicate Running()
      reads this
    {
      Idle() || Batching()
    }

    /** The state execution stands on: the open batch's, or Firewood's. */
    ghost function Now(): State
      reads this
    {
      if batch.open then batch.work else live
    }

    /** WriteBlock: appends in height order and skips what the store holds. */
    method WriteBlock(h: nat, b: Block) returns (st: Status)
      requires Saved() && h > 0 && b == c.blocks(h) && (fooled || c.Covered(h))
      modifies this`store
      ensures Saved() && old(store) <= store
      ensures st.Ok? ==> store == if h == old(|store|) + 1 then old(store) + [b] else old(store)
      ensures st.Ok? ==> h <= |store|
      ensures !st.Ok? ==> store == old(store) && (st.Failed? || st.Crashed?)
    {
      var stop := Durably();
      if !stop.Ok? { return stop; }
      if h <= |store| { return Ok; }
      if h != |store| + 1 { return Failed; }
      AppendSaved(c, store, fw, fooled);
      store := store + [b];
      return Ok;
    }

    /** A Firewood commit: durable at some later time, if at all. */
    method CommitState(h: nat, s: State) returns (st: Status)
      requires Saved() && h <= |store| && c.Matches(h, s)
      modifies this`fw, this`live
      ensures Saved() && (st.Ok? ==> live == s && fw == old(fw) + [Commit(h, s)])
      ensures !st.Ok? ==> live == old(live) && fw == old(fw) && (st.Failed? || st.Crashed?)
    {
      var stop := Durably();
      if !stop.Ok? { return stop; }
      CommitDurable(c, store, fw, h, s);
      fw, live := fw + [Commit(h, s)], s;
      return Ok;
    }

    /** executeBlock: verify the root, then rows, then Firewood. The caller moves
        the head. */
    method ExecuteBlock(n: nat, b: Block) returns (st: Status, newRoot: Root)
      requires Idle() && n == head.num + 1 && b == c.blocks(n)
      modifies this`store, this`fw, this`live
      ensures Saved() && old(|store|) <= |store|
      ensures st.Ok? ==> n <= |store| && newRoot == c.RootAt(n) && c.Matches(n, live)
      ensures st.Ok? ==> c.Step(n, old(live)) == Some(live)
      ensures st.Refused? <==> !c.Verifies(old(live), n - 1, n)
      ensures (st.Refused? ==> st.at == n) && !st.BatchBug?
      ensures st.Ok? && n <= old(|store|) ==> store == old(store)
      ensures st.Ok? && n > old(|store|) ==> |store| == n
    {
      newRoot := head.root;
      OneStep(c, n, live);
      if b.root == head.root && b.empty {
        CoverOne(c, n, live, live);
        st := WriteBlock(n, b);
        return;
      }
      var post := c.apply(live, head.time, b);
      if post.None? { return Refused(n), newRoot; }
      newRoot := c.root(post.value);
      if newRoot != b.root { return Refused(n), newRoot; }
      CoverOne(c, n, live, post.value);
      st := WriteBlock(n, b);
      if !st.Ok? { return; }
      st := CommitState(n, post.value);
    }

    /** The head of executeBatched: a batch starts where memory is. */
    method OpenBatch()
      requires Idle()
      modifies this`batch, this`own
      ensures Batching() && batch.work == live && batch.count == 0
    {
      batch := Batch(true, false, 0, head.num, head.root, head.time, [], live);
      own := live;
    }

    /** The rest of executeBatched up to the flush: the block joins the batch. A block that
        is refused, or breaks off on an I/O error, is not in it, but what the first
        drained transactions wrote stays in the batch's trie. */
    method Join(n: nat, b: Block, broken: bool, drained: nat) returns (st: Status)
      requires Batching() && n == head.num + 1 && b == c.blocks(n)
      modifies this`head, this`batch, this`own
      ensures st.Failed? <==> broken && !(b.root == old(head.root) && b.empty)
      ensures !st.Failed? ==> st == if c.Step(n, old(batch.work)).Some? then Ok else Refused(n)
      ensures st.Ok? ==> Batching() && head.num == n && c.Step(n, old(batch.work)) == Some(batch.work)
      ensures st.Ok? ==> batch == Joined(old(batch), b, b.root == old(head.root) && b.empty, batch.work)
      ensures !st.Ok? ==> Leaked() && head == old(head) && own == old(own)
      ensures !st.Ok? ==> batch == old(batch).(work := c.leak(old(batch.work), head.time, b, drained))
    {
      var skip := b.root == head.root && b.empty;
      var post := if skip then Some(batch.work) else c.apply(batch.work, head.time, b);
      if post.None? || (broken && !skip) {
        batch := batch.(work := c.leak(batch.work, head.time, b, drained));
        return if broken then Failed else Refused(n);
      }
      JoinBatch(c, batch, head, live, post.value);
      batch := Joined(batch, b, skip, post.value);
      head, own := Head(n, b.root, b.time), post.value;
      return Ok;
    }

    /** The loop of flushBatch: the rows of a verified batch, in order. */
    method WriteBatch() returns (st: Status)
      requires Pending() && (fooled || c.Ran(batch.startNum, live, head.num, own))
      modifies this`store
      ensures Saved() && old(|store|) <= |store|
      ensures st.Ok? ==> head.num <= |store| && (head.num <= old(|store|) ==> store == old(store))
      ensures st.Ok? && head.num > old(|store|) ==> |store| == head.num
      ensures st.Ok? || st.Failed? || st.Crashed?
    {
      st := Ok;
      var i := 0;
      while i < |batch.buf|
        invariant st.Ok? && 0 <= i <= |batch.buf| && Saved() && old(|store|) <= |store| && batch.startNum + i <= |store|
        invariant |store| == if batch.startNum + i <= old(|store|) then old(|store|) else batch.startNum + i
        invariant batch.startNum + i <= old(|store|) ==> store == old(store)
      {
        var n := batch.startNum + 1 + i;
        assert fooled || c.Covered(n);
        st := WriteBlock(n, batch.buf[i]);
        if !st.Ok? { return; }
        i := i + 1;
      }
    }

    /** flushBatch: verify the boundary root, then the rows, then one commit. */
    method FlushBatch() returns (st: Status)
      requires Pending()
      modifies this
      ensures Saved() && old(|store|) <= |store| && fooled == old(fooled || Fooling())
      ensures batch.open ==> Pending() && batch == old(batch) && own == old(own) && head == old(head)
      ensures st.Ok? ==> Idle() && head.num == old(head.num)
      ensures st.Ok? ==> |store| == if head.num <= old(|store|) then old(|store|) else head.num
      ensures st.Ok? ==> live == if old(batch.dirty) then old(batch.work) else old(live)
      ensures st.Refused? ==> !c.Matches(old(head.num), old(batch.work)) && st.at <= old(head.num)
      ensures st.Refused? ==> FirstBad(c, old(live), old(batch.startNum), st.at)
      ensures if old(Blamed()) then !st.Ok? && !st.Refused? else !st.BatchBug?
      ensures old(Batching()) ==> !st.BatchBug? && fooled == old(fooled)
    {
      var computed := if batch.dirty then c.root(batch.work) else batch.startRoot;
      Verdicts(c, batch, head, live, own);
      if computed != head.root {
        st := Bisect();
        return;
      }
      fooled := fooled || Fooling();
      st := WriteBatch();
      if !st.Ok? { return; }
      if batch.dirty {
        st := CommitState(head.num, batch.work);
        if !st.Ok? { return; }
      }
      batch := batch.(open := false, dirty := false, buf := []);
    }

    /** One round of bisect: block i, run on its own. */
    method RunOne(i: nat, ghost start: State, ghost m: nat) returns (st: Status)
      requires Idle() && m < i == head.num + 1 && c.Range(start, m, head.num) == Some(live)
      modifies this`store, this`fw, this`live, this`head
      ensures Saved() && old(|store|) <= |store|
      ensures st.Ok? ==> Idle() && head.num == i && c.Range(start, m, i) == Some(live) && c.Verifies(start, m, i)
      ensures (st.Refused? ==> st.at == i && !c.Verifies(start, m, i)) && !st.BatchBug?
    {
      var ok, b := Fetch(i);
      if !ok { return Failed; }
      var newRoot;
      OneMore(c, start, m, i, live);
      st, newRoot := ExecuteBlock(i, b);
      if !st.Ok? { return; }
      head := Head(i, newRoot, b.time);
    }

    /** bisect: the batch is dropped and its blocks are run one by one from its
        start; whatever happens, the node stops. A block it names is the first of
        the batch that does not verify. The error for a batch whose blocks all verify
        comes exactly when they do, unless something else fails first. */
    method Bisect() returns (st: Status)
      requires Pending()
      modifies this
      ensures Saved() && !st.Ok? && old(|store|) <= |store| && !batch.open && fooled == old(fooled)
      ensures st.Refused? ==> FirstBad(c, old(live), old(batch.startNum), st.at) && st.at <= old(head.num)
      ensures st.BatchBug? ==> c.AllVerify(old(live), old(batch.startNum), old(head.num) + 1)
    {
      var from, last := batch.startNum + 1, head.num;
      ghost var start, m := live, batch.startNum;
      batch := batch.(open := false, dirty := false, buf := []);
      head := Head(batch.startNum, batch.startRoot, batch.startTime);
      var i := from;
      while i <= last
        invariant Idle() && from <= i == head.num + 1 <= last + 1 && old(|store|) <= |store| && fooled == old(fooled)
        invariant c.Range(start, m, head.num) == Some(live)
        invariant c.AllVerify(start, m, i)
        decreases last + 1 - i
      {
        st := RunOne(i, start, m);
        if !st.Ok? { return; }
        VerifyMore(c, start, m, i);
        i := i + 1;
      }
      return BatchBug;
    }

    /** The container source: the block of that height, or nothing. */
    method Fetch(i: nat) returns (ok: bool, b: Block)
      ensures ok ==> b == c.blocks(i)
    {
      ok := *;
      b := c.blocks(i);
    }

    /** executeBatched: into the batch, which is flushed when it is full. */
    method ExecuteBatched(n: nat, b: Block) returns (st: Status)
      requires Running() && n == head.num + 1 && b == c.blocks(n)
      modifies this
      ensures Saved() && old(|store|) <= |store| && fooled == old(fooled) && (batch.open ==> Leaked())
      ensures st.Ok? ==> Running() && head.num == n && c.Step(n, old(Now())) == Some(Now())
      ensures st.Ok? && !batch.open ==> |store| == if n <= old(|store|) then old(|store|) else n
      ensures st.Ok? && batch.open ==> store == old(store) && batch.count > 0
      ensures (Honest(c) && Injective(c.root) ==> !st.Refused?) && !st.BatchBug?
    {
      if !batch.open { OpenBatch(); }
      if Honest(c) && Injective(c.root) { HonestStep(c, batch.startNum, live, n, batch.work); }
      var broken: bool, drained: nat := *, *;
      st := Join(n, b, broken, drained);
      if st.Ok? && batch.count >= commitEvery { st := FlushBatch(); }
    }

    /** executeRaw: one block, batched or not. A batch it leaves open on an error may hold
        what the block drained. */
    method ExecuteRaw(n: nat, b: Block) returns (st: Status)
      requires Running() && n == head.num + 1 && b == c.blocks(n)
      requires commitEvery <= 1 ==> !batch.open
      modifies this
      ensures Saved() && old(|store|) <= |store| && fooled == old(fooled) && (batch.open ==> Leaked())
      ensures st.Ok? ==> Running() && head.num == n && (commitEvery <= 1 ==> !batch.open)
      ensures st.Ok? && batch.open ==> batch.count > 0
      ensures st.Ok? ==> c.Step(n, old(Now())) == Some(Now())
      ensures st.Ok? && !batch.open ==> |store| == if n <= old(|store|) then old(|store|) else n
      ensures st.Ok? && batch.open ==> store == old(store)
      ensures (Honest(c) && Injective(c.root) ==> !st.Refused?) && !st.BatchBug?
    {
      if commitEvery > 1 {
        st := ExecuteBatched(n, b);
      } else {
        var newRoot;
        if Honest(c) && Injective(c.root) { HonestStep(c, head.num, live, n, live); }
        st, newRoot := ExecuteBlock(n, b);
        if !st.Ok? { return; }
        head := Head(n, newRoot, b.time);
      }
    }

    /** The walk-back: the highest stored header within the budget that claims
        Firewood's root. It asks for header 0 when the budget reaches genesis, and
        that header is never stored. */
    method WalkBack(rootFW: Root) returns (st: Status, found: bool, fwN: nat)
      requires Saved() && store != []
      ensures st.Failed? <==> Low(|store|, commitEvery) == 0 && !Claimed(c, rootFW, 1, |store|)
      ensures (st.Ok? || st.Failed?) && (st.Ok? ==> (found <==> Claimed(c, rootFW, Low(|store|, commitEvery), |store|)))
      ensures st.Ok? && found ==> 0 < fwN <= |store| && FetchFrom(|store|, commitEvery) <= fwN + 1
      ensures st.Ok? && found ==> c.RootAt(fwN) == rootFW && !Claimed(c, rootFW, fwN + 1, |store|)
      ensures st.Ok? && !found ==> Low(|store|, commitEvery) > 0
    {
      var lo := Low(|store|, commitEvery);
      var i := |store|;
      while true
        invariant lo <= i <= |store| && !Claimed(c, rootFW, i + 1, |store|)
        decreases i
      {
        if i == 0 { return Failed, false, 0; }
        assert store[i - 1].root == c.RootAt(i);
        if store[i - 1].root == rootFW { return Ok, true, i; }
        if i == lo { return Ok, false, 0; }
        i := i - 1;
      }
    }

    /** The end of reconcile: run the blocks Firewood has not seen, and reach the state
        that executing them in one go reaches. */
    method ReExecute(top: nat) returns (st: Status)
      requires Idle() && head.num <= top == |store|
      modifies this
      ensures Saved() && old(|store|) <= |store| && (batch.open ==> Pending()) && fooled == old(fooled)
      ensures st.Ok? ==> Idle() && head.num == top == |store| && c.Range(old(live), old(head.num), top) == Some(live)
      ensures old(head.num) == top ==> st.Ok? && live == old(live)
      ensures (Honest(c) && Injective(c.root) ==> !st.Refused?) && !st.BatchBug?
    {
      st := Ok;
      while head.num < top
        invariant st.Ok? && Running() && head.num <= top == |store| && (commitEvery <= 1 ==> !batch.open)
        invariant old(head.num) <= head.num && c.Range(old(live), old(head.num), head.num) == Some(Now())
        invariant old(head.num) == top ==> !batch.open && live == old(live)
        invariant fooled == old(fooled)
        decreases top - head.num
      {
        var i := head.num + 1;
        OneMore(c, old(live), old(head.num), i, Now());
        var ok, b := Fetch(i);
        if !ok { return Failed; }
        st := ExecuteRaw(i, b);
        if !st.Ok? { return; }
      }
      if batch.open {
        if Honest(c) && Injective(c.root) { HonestBatch(c, batch.startNum, live, head.num, batch.work); }
        st := FlushBatch();
      }
    }

    /** reconcile: when it succeeds memory stands at the store's head with the state
        that executing the blocks after the matched header makes of Firewood's, and
        has the root the head's header claims. That is the chain's own state when
        Firewood's is the one the chain has at the matched header, and it is that
        exactly when the chain up to there meets the header's root. */
    method Reconcile() returns (st: Status, ghost matched: nat)
      requires Opened()
      modifies this
      ensures Saved() && old(|store|) <= |store| && (batch.open ==> Pending()) && fooled == old(fooled)
      ensures st.Ok? ==> Idle() && head.num == |store| == old(|store|)
      ensures st.Ok? ==> matched <= head.num && c.Matches(matched, old(live))
      ensures st.Ok? ==> c.Range(old(live), matched, head.num) == Some(live)
      ensures st.Ok? && Injective(c.root) ==> (c.Range(c.genesis, 0, matched) == Some(old(live)) <==>
                c.Verifies(c.genesis, 0, matched))
      ensures st.Ok? && Injective(c.root) && c.Verifies(c.genesis, 0, matched) ==>
                c.Range(c.genesis, 0, head.num) == Some(live)
      ensures old(store != [] && c.Matches(|store|, live)) ==> st.Ok? && matched == head.num && live == old(live)
      ensures (Honest(c) && Injective(c.root) ==> !st.Refused?) && !st.BatchBug?
    {
      matched := 0;
      if store == [] {
        if fw != [] { NoCommits(c, store, fw); }
        if Injective(c.root) { ChainState(c, 0, live, 0, live); }
        return Ok, 0;
      }
      var top := |store|;
      var found, fwN;
      ghost var at := c.Matches(top, live);
      assert at ==> c.RootAt(top) == c.root(live);
      st, found, fwN := WalkBack(c.root(live));
      if !st.Ok? { return; }
      if !found {
        if c.root(live) != c.root(c.genesis) { return Failed, 0; }
        fwN := 0;
      }
      matched := fwN;
      ghost var start := live;
      head := Head(fwN, c.root(live), if fwN > 0 then store[fwN - 1].time else head.time);
      st := ReExecute(top);
      if st.Ok? && Injective(c.root) { ChainState(c, fwN, start, top, live); }
    }

    /** A batch with blocks in it is flushed where it stands: when no block comes, at the
        stop height, and by Close, after a block that did not get in too. */
    method Settle() returns (st: Status)
      requires Saved() && (batch.open ==> Pending())
      modifies this
      ensures Saved() && old(|store|) <= |store| && (batch.open ==> Pending())
      ensures fooled == old(fooled || (batch.open && batch.count > 0 && Fooling()))
      ensures old(Idle() || (Pending() && batch.count > 0)) && st.Ok? ==> Idle() && head.num == old(head.num)
      ensures old(Pending() && batch.count > 0) && st.Ok? ==>
                && |store| == (if head.num <= old(|store|) then old(|store|) else head.num)
                && live == if old(batch.dirty) then old(batch.work) else old(live)
      ensures old(batch.open && batch.count > 0 && Blamed()) ==> !st.Ok? && !st.Refused?
      ensures st.BatchBug? ==> old(batch.open && batch.count > 0 && Blamed() && batch.work != own)
      ensures st.Refused? ==> !c.Matches(old(head.num), old(batch.work))
      ensures Honest(c) && Injective(c.root) ==> !st.Refused?
      ensures old(batch.open ==> Leaked()) && !Foolable(c) ==> fooled == old(fooled)
      ensures old(Pending()) && Injective(c.root) ==>
                (old(Fooling()) <==> old(batch.dirty && c.Matches(head.num, batch.work) && batch.work != own))
      ensures batch.open ==> batch == old(batch) && own == old(own) && head == old(head)
    {
      st := Ok;
      if batch.open && Injective(c.root) && c.Matches(head.num, batch.work) {
        AcceptedIsRan(c, batch.startNum, live, head.num, own, batch.work);
      }
      if batch.open && batch.count > 0 {
        if Honest(c) && Injective(c.root) {
          HonestBatch(c, batch.startNum, live, head.num, own);
          HonestRun(c, batch.startNum, live, head.num);
        }
        Verdicts(c, batch, head, live, own);
        if Leaked() && Fooling() { FoolableAt(c, batch.startNum, live, head.num, own, batch.work); }
        st := FlushBatch();
      }
    }
  }

  /** A state with the root of header m is the chain's state there exactly when the
      chain meets that root; what is run on from it is then the chain's state too. */
  lemma ChainState(c: Chain, m: nat, s: State, k: nat, t: State)
    requires Injective(c.root) && c.Matches(m, s) && m <= k && c.Range(s, m, k) == Some(t)
    ensures c.Range(c.genesis, 0, m) == Some(s) <==> c.Verifies(c.genesis, 0, m)
    ensures c.Verifies(c.genesis, 0, m) ==> c.Range(c.genesis, 0, k) == Some(t)
  {
    if c.Verifies(c.genesis, 0, m) { RangeJoin(c, c.genesis, m, s, k); }
  }

  /** Block 1 turns genesis into s, and the first transactions of block 2 make x of that. */
  ghost predicate SpoiledSecond(c: Chain, s: State, x: State, drained: nat) {
    && !c.blocks(1).empty && c.apply(c.genesis, c.genesisTime, c.blocks(1)) == Some(s) && !c.blocks(2).empty
    && c.leak(s, c.blocks(1).time, c.blocks(2), drained) == x && x != s
  }

  /** And block 2 is refused after them. */
  ghost predicate RefusedSecond(c: Chain, s: State, x: State, drained: nat) {
    SpoiledSecond(c, s, x, drained) && c.apply(s, c.blocks(1).time, c.blocks(2)) == None
  }

  /** A batch of block 1, spoiled by block 2. */
  method Spoil(c: Chain, commitEvery: nat, drained: nat, broken: bool, ghost s: State, ghost x: State)
    returns (node: Node)
    requires SpoiledSecond(c, s, x, drained) && (broken || RefusedSecond(c, s, x, drained))
    ensures fresh(node) && node.c == c && node.store == [] && node.live == c.genesis && !node.fooled
    ensures node.Leaked() && node.batch.dirty && node.batch.startNum == 0 && node.head.num == node.batch.count == 1
    ensures node.own == s && node.batch.work == x
  {
    node := new Node(c, commitEvery, [], [], false);
    node.OpenBatch();
    var st := node.Join(1, c.blocks(1), false, 0);
    OneStep(c, 1, c.genesis);
    st := node.Join(2, c.blocks(2), broken, drained);
  }

  /** If header 1 claims the root of x, Close accepts the batch, stores block 1 and
      commits x, though no verified root covers the block. */
  method SpoiledIsAccepted(c: Chain, commitEvery: nat, drained: nat, ghost s: State, ghost x: State)
    returns (node: Node, st: Status)
    requires RefusedSecond(c, s, x, drained) && Injective(c.root) && c.blocks(1).root == c.root(x)
    ensures fresh(node) && node.c == c && node.fooled && !st.Refused? && !st.BatchBug? && Foolable(c)
    ensures st.Ok? ==> node.store == [c.blocks(1)] && node.live == x && !Durable(c, node.store, node.fw)
  {
    node := Spoil(c, commitEvery, drained, false, s, x);
    NothingVerified(c, s, x, drained);
    st := node.Settle();
  }

  lemma NothingVerified(c: Chain, s: State, x: State, drained: nat)
    requires RefusedSecond(c, s, x, drained) && Injective(c.root) && c.blocks(1).root == c.root(x)
    ensures !c.Covered(1)
  {
    forall m: nat, k: nat, u, t | m < 1 <= k ensures !c.Ran(m, u, k, t) {
      if c.Ran(m, u, k, t) {
        assert u == c.genesis;
        OneStep(c, 1, c.genesis);
        if k > 1 { NoneAfter(c, s, k); }
      }
    }
  }

  lemma {:induction false} NoneAfter(c: Chain, s: State, k: nat)
    requires c.Range(c.genesis, 0, 1) == Some(s) && c.Step(2, s) == None && k >= 2
    ensures c.Range(c.genesis, 0, k) == None
    decreases k
  {
    if k > 2 { NoneAfter(c, s, k - 1); }
  }

  /** If header 1 claims the right root, Close finds the batch at fault, and bisect finds
      every block of it right: after an I/O error on an honest chain too. */
  method CleanIsBlamed(c: Chain, commitEvery: nat, drained: nat, broken: bool, ghost s: State, ghost x: State)
    returns (node: Node, st: Status)
    requires SpoiledSecond(c, s, x, drained) && (broken || RefusedSecond(c, s, x, drained))
    requires Injective(c.root) && c.blocks(1).root == c.root(s)
    ensures fresh(node) && node.c == c && c.AllVerify(c.genesis, 0, 2)
    ensures st.BatchBug? || st.Failed? || st.Crashed?
  {
    node := Spoil(c, commitEvery, drained, broken, s, x);
    OneStep(c, 1, c.genesis);
    assert c.Verifies(c.genesis, 0, 1);
    st := node.Settle();
  }

  /** The chain need not meet the matched header. Block 1 claims the genesis root but
      changes the state, and only the root of its batch, 1..2, is verified. A kill
      after block 1's rows leaves Firewood at genesis, header 1 matches, and the node
      goes on from the genesis state at height 1. */
  method CutInsideBatch(c: Chain, commitEvery: nat, s: State, t: State) returns (node: Node)
    requires c.blocks(1).root == c.root(c.genesis) && c.Step(1, c.genesis) == Some(s) && s != c.genesis
    requires c.Step(2, s) == Some(t) && c.Matches(2, t)
    ensures fresh(node) && node.c == c && node.Idle() && node.head.num == 1
    ensures c.Range(c.genesis, 0, 1) == Some(s) && node.live == c.genesis != s
  {
    OneStep(c, 1, c.genesis);
    OneMore(c, c.genesis, 0, 2, s);
    assert c.Ran(0, c.genesis, 2, t);
    assert c.Covered(1);
    assert Durable(c, [c.blocks(1)], []);
    node := new Node(c, commitEvery, [c.blocks(1)], [], false);
    var st;
    ghost var matched;
    st, matched := node.Reconcile();
  }

  lemma VerifyMore(c: Chain, s: State, m: nat, k: nat)
    requires c.AllVerify(s, m, k) && c.Verifies(s, m, k)
    ensures c.AllVerify(s, m, k + 1)
  {
  }

  /** buf is the blocks past m. */
  ghost predicate Buffered(c: Chain, m: nat, buf: seq<Block>) {
    forall i :: 0 <= i < |buf| ==> buf[i] == c.blocks(m + 1 + i)
  }

  /** What an open batch is: the blocks past m, run on s to t, and whether any of them
      was executed at all. */
  ghost predicate InBatch(c: Chain, m: nat, s: State, buf: seq<Block>, t: State, dirty: bool) {
    && Buffered(c, m, buf) && c.Range(s, m, m + |buf|) == Some(t)
    && (!dirty ==> t == s && c.RootAt(m + |buf|) == c.RootAt(m))
  }

  /** A batch that is not dirty ends at the root it starts from. One whose blocks all
      verify ends at the root it should; so a trie that misses it holds another state. */
  lemma Verdicts(c: Chain, b: Batch, h: Head, live: State, own: State)
    requires BatchAt(c, b, h, live, own)
    ensures !b.dirty ==> b.startRoot == h.root && own == live && c.Matches(h.num, live)
    ensures c.Matches(h.num, own) ==> c.Ran(b.startNum, live, h.num, own)
    ensures c.AllVerify(live, b.startNum, h.num + 1) ==> c.Matches(h.num, own)
  {
    if b.buf != [] && c.AllVerify(live, b.startNum, h.num + 1) { assert c.Verifies(live, b.startNum, h.num); }
  }

  /** x is t, or what some first transactions of the block after k make of it. */
  ghost predicate LeakAt(c: Chain, k: nat, t: State, x: State) {
    x == t || exists drained: nat {:trigger c.leak(t, c.TimeAt(k), c.blocks(k + 1), drained)} ::
      x == c.leak(t, c.TimeAt(k), c.blocks(k + 1), drained)
  }

  /** Some run of blocks misses the root its last header claims, and the first
      transactions of the block after it make a state that has that root. */
  ghost predicate Foolable(c: Chain) {
    exists m: nat, s, k: nat, t, x :: FoolsAt(c, m, s, k, t, x)
  }

  ghost predicate FoolsAt(c: Chain, m: nat, s: State, k: nat, t: State, x: State) {
    && m <= k && c.Matches(m, s) && c.Range(s, m, k) == Some(t)
    && LeakAt(c, k, t, x) && c.Matches(k, x) && !c.Matches(k, t)
  }

  lemma FoolableAt(c: Chain, m: nat, s: State, k: nat, t: State, x: State)
    requires FoolsAt(c, m, s, k, t, x)
    ensures Foolable(c)
  {
  }

  /** A chain with honest headers fools nobody. */
  lemma HonestNotFoolable(c: Chain)
    requires Honest(c) && Injective(c.root)
    ensures !Foolable(c)
  {
    if Foolable(c) {
      var m: nat, s, k: nat, t, x :| FoolsAt(c, m, s, k, t, x);
      HonestBatch(c, m, s, k, t);
    }
  }

  /** Accepted on the root of x, the batch is attested exactly when x is its state. */
  lemma AcceptedIsRan(c: Chain, m: nat, s: State, k: nat, t: State, x: State)
    requires Injective(c.root) && c.Matches(m, s) && c.Range(s, m, k) == Some(t) && c.Matches(k, x)
    ensures c.Ran(m, s, k, x) <==> x == t
    ensures c.Matches(k, t) <==> x == t
  {
  }

  function Joined(b: Batch, x: Block, skip: bool, post: State): Batch {
    b.(work := post, dirty := b.dirty || !skip, buf := b.buf + [x], count := b.count + 1)
  }

  lemma JoinBatch(c: Chain, b: Batch, h: Head, live: State, post: State)
    requires BatchAt(c, b, h, live, b.work) && c.Step(h.num + 1, b.work) == Some(post)
    ensures var n := h.num + 1;
            var x := c.blocks(n);
            BatchAt(c, Joined(b, x, x.root == h.root && x.empty, post), Head(n, x.root, x.time), live, post)
  {
    var n := h.num + 1;
    OneMore(c, live, b.startNum, n, b.work);
    var buf' := b.buf + [c.blocks(n)];
    forall i | 0 <= i < |buf'| ensures buf'[i] == c.blocks(b.startNum + 1 + i) {
      if i < |b.buf| { assert buf'[i] == b.buf[i]; }
    }
  }

  /** Block bad is the first past m that does not verify when they are run on s. */
  ghost predicate FirstBad(c: Chain, s: State, m: nat, bad: nat) {
    m < bad && !c.Verifies(s, m, bad) && c.AllVerify(s, m, bad)
  }

  lemma OneStep(c: Chain, n: nat, s: State)
    requires n > 0
    ensures c.Range(s, n - 1, n) == c.Step(n, s)
  {
    assert c.Range(s, n - 1, n - 1) == Some(s);
  }

  /** One block past a range, run on its own. */
  lemma OneMore(c: Chain, s: State, m: nat, n: nat, t: State)
    requires m < n && c.Range(s, m, n - 1) == Some(t)
    ensures c.Range(s, m, n) == c.Step(n, t) == c.Range(t, n - 1, n)
  {
    OneStep(c, n, t);
  }

  /** The lowest height the walk-back looks at. */
  function Low(top: nat, commitEvery: nat): nat {
    if top > WalkBackBudgetFor(commitEvery) then top - WalkBackBudgetFor(commitEvery) else 0
  }

  /** FetchStart: where the container queue is opened over a store with head top. */
  function FetchFrom(top: nat, commitEvery: nat): nat {
    if top > WalkBackBudgetFor(commitEvery) then top - WalkBackBudgetFor(commitEvery) + 1 else 1
  }

  /** Some header in [lo, hi] claims the root r. */
  ghost predicate Claimed(c: Chain, r: Root, lo: nat, hi: nat) {
    exists i: nat {:trigger c.RootAt(i)} :: lo <= i <= hi && c.RootAt(i) == r
  }

  lemma NoCommits(c: Chain, store: seq<Block>, fw: seq<Commit>)
    requires Claims(c, store, fw) && store == [] && fw != []
    ensures c.Matches(0, fw[|fw| - 1].state)
  {
    assert fw[|fw| - 1].height <= 0;
  }

  /** What a stop leaves of the disk: the store, and Firewood cut anywhere. */
  lemma LosingCommits(c: Chain, store: seq<Block>, fw: seq<Commit>, kept: nat)
    requires Claims(c, store, fw) && kept <= |fw|
    ensures Claims(c, store, fw[..kept])
  {
    assert forall i :: 0 <= i < kept ==> fw[..kept][i] == fw[i];
  }

  /** Any number of lives on one disk: each opens what the last one left, with any
      tail of Firewood's commits lost, realigns, runs some blocks and stops, on its
      own or not, at any durable step. The stored blocks are the chain's and every
      commit is claimed; the disk is sound on every chain that cannot fool a Close. An
      honest chain cannot, and there no life stops because a block was refused either. */
  method Lives(c: Chain, settings: seq<nat>) returns (store: seq<Block>, fw: seq<Commit>, refused: bool)
    ensures Claims(c, store, fw) && (!Foolable(c) ==> Durable(c, store, fw))
    ensures Honest(c) && Injective(c.root) ==> Durable(c, store, fw) && !refused
  {
    store, fw, refused := [], [], false;
    ghost var fooled := false;
    for life := 0 to |settings|
      invariant Claims(c, store, fw) && (!fooled ==> Attested(c, store)) && (fooled ==> Foolable(c))
      invariant Honest(c) && Injective(c.root) ==> !refused
    {
      var kept: nat :| kept <= |fw|;
      LosingCommits(c, store, fw, kept);
      var node := new Node(c, settings[life], store, fw[..kept], fooled);
      var bad := Live(node);
      store, fw, refused, fooled := node.store, node.fw, refused || bad, node.fooled;
    }
    if Honest(c) && Injective(c.root) { HonestNotFoolable(c); }
  }

  /** One life: reconcile, whose failure ends it, then the main loop for as long as it
      goes, which flushes an open batch when no block comes or the stop height is
      reached; then Close, unless the process was killed. */
  method Live(node: Node) returns (refused: bool)
    requires node.Opened()
    modifies node
    ensures node.Saved() && (!Foolable(node.c) ==> node.fooled == old(node.fooled))
    ensures Honest(node.c) && Injective(node.c.root) ==> !refused
  {
    var st;
    ghost var matched;
    st, matched := node.Reconcile();
    refused := st.Refused?;
    if !st.Ok? { return; }
    st := Blocks(node);
    refused := st.Refused?;
    if st.Crashed? { return; }
    st := node.Settle();
    refused := refused || st.Refused?;
  }

  method Blocks(node: Node) returns (st: Status)
    requires node.Idle()
    modifies node
    ensures node.Saved() && (node.batch.open ==> node.Leaked())
    ensures !Foolable(node.c) ==> node.fooled == old(node.fooled)
    ensures Honest(node.c) && Injective(node.c.root) ==> !st.Refused?
  {
    st := Ok;
    var steps: nat := *;
    while steps > 0
      invariant node.Running() && (node.commitEvery <= 1 ==> !node.batch.open) && st.Ok?
      invariant node.batch.open ==> node.batch.count > 0
      invariant !Foolable(node.c) ==> node.fooled == old(node.fooled)
    {
      var ok, b := node.Fetch(node.head.num + 1);
      if ok { st := node.ExecuteRaw(node.head.num + 1, b); } else { st := node.Settle(); }
      if !st.Ok? { return; }
      steps := steps - 1;
    }
  }

  ghost predicate Injective(root: State -> Root) {
    forall s, t {:trigger root(s), root(t)} :: root(s) == root(t) ==> s == t
  }

  lemma CommitDurable(c: Chain, store: seq<Block>, fw: seq<Commit>, h: nat, s: State)
    requires Claims(c, store, fw) && h <= |store| && c.Matches(h, s)
    ensures Claims(c, store, fw + [Commit(h, s)])
  {
    var fw' := fw + [Commit(h, s)];
    forall i {:trigger fw'[i]} | 0 <= i < |fw'|
      ensures fw'[i].height <= |store| && c.Matches(fw'[i].height, fw'[i].state)
    {
      if i < |fw| { assert fw'[i] == fw[i]; } else { assert fw'[i] == Commit(h, s); }
    }
  }

  lemma AppendSaved(c: Chain, store: seq<Block>, fw: seq<Commit>, fooled: bool)
    requires Claims(c, store, fw) && (!fooled ==> Attested(c, store) && c.Covered(|store| + 1))
    ensures Claims(c, store + [c.blocks(|store| + 1)], fw)
    ensures !fooled ==> Attested(c, store + [c.blocks(|store| + 1)])
  {
    var store' := store + [c.blocks(|store| + 1)];
    forall i {:trigger store'[i]} | 0 <= i < |store'| ensures store'[i] == c.blocks(i + 1) {
      if i < |store| { assert store'[i] == store[i]; } else { assert i == |store|; }
    }
  }

  /** Every header claims the root uninterrupted execution reaches. */
  ghost predicate Honest(c: Chain) {
    forall n: nat {:trigger c.Verifies(c.genesis, 0, n)} :: c.Verifies(c.genesis, 0, n)
  }

  lemma {:induction false} RangeJoin(c: Chain, s: State, a: nat, t: State, b: nat)
    requires a <= b && c.Range(s, 0, a) == Some(t)
    ensures c.Range(s, 0, b) == c.Range(t, a, b)
    decreases b
  {
    if a < b { RangeJoin(c, s, a, t, b - 1); }
  }

  /** On an honest chain a state with a claimed root is the one execution reaches, so
      whatever runs on from it verifies. */
  lemma HonestBatch(c: Chain, m: nat, s: State, k: nat, t: State)
    requires Honest(c) && Injective(c.root) && m <= k && c.Matches(m, s) && c.Range(s, m, k) == Some(t)
    ensures c.Range(c.genesis, 0, k) == Some(t) && c.Matches(k, t)
  {
    assert c.Verifies(c.genesis, 0, m);
    RangeJoin(c, c.genesis, m, s, k);
    assert c.Verifies(c.genesis, 0, k);
  }

  /** On an honest chain every block run on from there verifies. */
  lemma HonestRun(c: Chain, m: nat, s: State, k: nat)
    requires Honest(c) && Injective(c.root) && c.Matches(m, s)
    ensures c.AllVerify(s, m, k + 1)
  {
    forall n {:trigger c.Verifies(s, m, n)} | m < n < k + 1 ensures c.Verifies(s, m, n) {
      assert c.Verifies(c.genesis, 0, m) && c.Verifies(c.genesis, 0, n);
      RangeJoin(c, c.genesis, m, s, n);
    }
  }

  lemma HonestStep(c: Chain, m: nat, s: State, n: nat, t: State)
    requires Honest(c) && Injective(c.root) && m < n && c.Matches(m, s) && c.Range(s, m, n - 1) == Some(t)
    ensures c.Step(n, t).Some? && c.Matches(n, c.Step(n, t).value) && c.Verifies(t, n - 1, n)
  {
    HonestBatch(c, m, s, n - 1, t);
    OneStep(c, n, t);
    assert c.Verifies(c.genesis, 0, n);
  }

  /** On an honest chain whatever survives of Firewood is a state of uninterrupted
      execution at or below the store's head. */
  lemma HonestCommits(c: Chain, store: seq<Block>, fw: seq<Commit>, i: nat)
    requires Claims(c, store, fw) && Honest(c) && Injective(c.root) && i < |fw|
    ensures fw[i].height <= |store| && c.Range(c.genesis, 0, fw[i].height) == Some(fw[i].state)
  {
    var h := fw[i].height;
    assert c.Matches(h, fw[i].state) && c.Verifies(c.genesis, 0, h);
  }

  /** A stop between block 1's rows and Firewood's first persisted commit leaves a
      disk the walk-back cannot match: the budget reaches height 0, whose header it
      asks for before it considers the genesis root. */
  lemma GenesisOutOfReach(c: Chain, commitEvery: nat, t: State)
    requires c.Step(1, c.genesis) == Some(t) && c.Matches(1, t) && c.root(t) != c.root(c.genesis)
    ensures Durable(c, [c.blocks(1)], [])
    ensures Low(1, commitEvery) == 0 && !Claimed(c, c.root(c.genesis), 1, 1)
  {
    CoverOne(c, 1, c.genesis, t);
  }

  lemma CoverOne(c: Chain, n: nat, s: State, t: State)
    requires n > 0 && c.Matches(n - 1, s) && c.Step(n, s) == Some(t) && c.Matches(n, t)
    ensures c.Covered(n)
  {
    assert c.Range(s, n - 1, n - 1) == Some(s);
    assert c.Ran(n - 1, s, n, t);
  }
}
