# epochdb, modelled

A Dafny model of the parts of epochdb where a fast or interruptible implementation
has to agree with a short specification, and proofs that it does.

- **Latest state** (`LatestRun`, `LatestIter`, `LatestOverlay`, `LatestMerge`,
  `LatestView`). A run file is written block by block with front-coded keys and a
  truncated, zero-padded prefix index; it is read without building keys. Overlays are
  byte slabs behind an index. The specification is a map, newest level first, an empty
  value being a deletion. The chain of results ends in `Merge`, whose file answers
  every key as the view it was made from, and in `SwapIsInvisible`.
- **Trie nodes** (`Nibbles`, `Rlp`, `NodeTrie`, `NodeFile`, `NodeWalk`, `NodeIndex`,
  `NodeFooter`, `NodeRoll`, `NodeStack`, `Dirty`, `Leaf`). A roll streams the internal nodes of many
  tries, interleaved, into one file and threads child offsets through a map of nodes
  that wait for their parent. `Roll` and `ReadNode` are the two ends: for every owner
  and every nibble path the reader finds exactly what was emitted. `StackTrieEmits`
  shows that any trie's post-order meets what the roll assumes. `Dirty` and `Leaf` are
  the overlay of changed nodes and the leaves rebuilt from flat rows. Hex-prefix coding
  is Appendix C and RLP Appendix B of the Ethereum Yellow Paper.
- **Crash protocol** (`Executor`). Rows first, Firewood last, over an arbitrary chain
  whose headers may claim anything. Every durable operation may stop the process, any
  tail of Firewood's commits may be lost, and any number of lives follow each other on
  one disk (`Lives`). Execution is an uninterpreted deterministic function that may
  refuse a block, or break off on an I/O error, and leave what its first transactions
  wrote behind in a batch; the root is an uninterpreted function of the state.
- **Fetch window** (`FetchQueue`, `FetchWindow`, `Retention`). The hash-linked queue,
  the span scheduler with a second producer and a consumer acting between any two
  steps, and the proof that what the executor reads twice is still held.
- **Read cache** (`Capture`). The cache and the batch tombstones over a trie
  whose overlay forgets a destruct when the account comes back.
- **Queries** (`Logs`, `Paging`). Posting-driven log queries equal a scan; following a
  page cursor visits everything once.
- **Settlement** (`SaeFee`, `SaeRing`). The base fee read back off settlement markers is
  the one execution used; the ring keeps exactly the latest 8192 heights.
- **Containers and subscriptions** (`Container`, `Ws`).

Mutable objects of the source are classes; their heavier steps are methods on values
that the class methods call. A datatype or subset type that carries an invariant, such
as `LatestRun.Rep`, `NodeFile.Sound` or `FetchWindow.Sound`, is the state together with
the abstract value it stands for. `Bytes`, `Slab` and `Totals` hold what several of them share. Checksums, EVM execution, gas clock operations, block
decoding and hashes are parameters or abstract types. Reads, writes and crashes that
the environment decides are nondeterministic choices.

Places where the code does less than its comments say are stated exactly:

- `Executor.WalkBack` fails, rather than falling back to genesis, exactly when the
  budget reaches height 0 and no stored header claims Firewood's root, because it asks
  for header 0 first and block 0 is never stored (exec/executor.go:601-642,
  store/mem.go:567-569). `GenesisOutOfReach` gives a disk on which that happens. When the budget
  does not reach that far the fallback fails for want of block 1 (`FallbackFails`).
- `Executor.Settle`: the first transactions of a block that is refused, or breaks off on
  an I/O error, stay in the batch's trie (exec/executor.go:1231-1232, 1357-1361), and
  Close flushes that batch. `SpoiledIsAccepted` and `CleanIsBlamed` are its two outcomes.
  With an injective root a flush goes wrong exactly when the batch is dirty and its trie, not its own
  state, has the claimed root; that needs a chain that is `Foolable`, which no honest
  chain is, and `Lives` leaves a sound disk on every other chain.
- `Executor.Reconcile` trusts the header it matches. A header inside a batch is not
  verified by itself, and `CutInsideBatch` gives a disk on which one that claims
  Firewood's root is matched with a state the chain does not have there.
- `Retention.BisectMisses`: the limit New puts on CommitEvery (exec/executor.go:334-340)
  ignores the blocks the prefetch pipeline has already taken. The exact condition is
  CommitEvery + 1539 <= KeepBehind, which 64 meets; inside reconcile, where nothing is
  prefetched, New's limit is the exact one (`ReadAgain`).
- `Paging.FollowDown` and `FollowStuck`: a descending walk restarts for ever exactly when
  TxNums 0 and 1 both match and the page size divides one less than the number of
  matches.
- `Ws.Run` and `SentTwice`: an event that cannot be delivered stops the poller and not
  the connection (rpc/ws.go:325-333), and a later subscription's poller sends the head of
  that block again.
- `Capture.DestructedRead`: outside a batch the trie answers for a destructed account
  only where its slot is legible; `Run` carries that over whole sequences of operations.

## Model

| member | source | states |
|---|---|---|
| `LatestRun.CommonPrefix` | latest/run.go:86-90 | the length of the longest common prefix: the two keys agree up to it and differ or end there |
| `LatestRun.Writer.constructor` | latest/run.go:54-63 | a new writer has accepted nothing |
| `LatestRun.Writer.Add` | latest/run.go:65-95 | accepts exactly the entries within the size limits whose key is above the last one, and then the accepted list grows by that entry; a refused entry changes nothing |
| `LatestRun.Writer.Place` | latest/run.go:78-94 | an entry that fits, or that opens a block, leaves buffers that encode the accepted list plus that entry |
| `LatestRun.Writer.Flush` | latest/run.go:97-108 | closing the open block keeps the accepted list; the next entry starts a block |
| `LatestRun.Writer.Close` | latest/run.go:111-136 | the file is the blocks, the prefix index, the footer and a checksum over the accepted list |
| `LatestRun.FrontCodeSnoc` | latest/run.go:78-94 | front coding a list with one more entry appends that entry coded against the key before it |
| `LatestRun.PadMonotone` | latest/run.go:97-108 | cutting keys to 40 bytes and padding with zeros keeps their order, though it may merge them |
| `LatestRun.FlushKeeps` | latest/run.go:97-108 | flushing keeps the invariant that the buffers are the coding of the list in blocks |
| `LatestRun.OpenKeeps` | latest/run.go:78-94 | the first entry of a block is stored whole and its 40-byte prefix goes to the index |
| `LatestRun.ExtendKeeps` | latest/run.go:78-94 | a further entry of a block extends its code and nothing else |
| `LatestRun.FirstKeyIs` | latest/run.go:191-194 | the first key read off a block is the key of its first entry |
| `LatestRun.SearchPrefix` | latest/run.go:211-236 | both binary searches over the padded prefixes: the first block whose padded first key is at or above the padded key, or, not strict, above it |
| `LatestRun.SearchKeys` | latest/run.go:237-247 | the first of the tied blocks whose whole first key is above the key |
| `LatestRun.Seek` | latest/run.go:211-248 | the last block whose first key is at or below the key, whatever ties there are among padded prefixes; -1 when there is none |
| `LatestRun.ReadEntry` | latest/run.go:256-283 | the fields decoded at a cursor are those of the entry coded there, and the cursor lands on the next one |
| `LatestRun.Judge` | latest/run.go:256-283 | from the shared length and the suffix alone: found, passed, or certainly absent |
| `LatestRun.ScanBlock` | latest/run.go:256-283 | the scan that never builds a key answers as a linear lookup in the block's entries |
| `LatestRun.SeekIsolates` | latest/run.go:202-208 | only the block seek picks can hold the key |
| `LatestRun.Get` | latest/run.go:202-208 | for every key, what a linear lookup in the list the run was built from answers |
| `LatestRun.FooterFields` | latest/run.go:111-136 | a written footer parses to the fields it was written from |
| `LatestRun.OpenWritten` | latest/run.go:148-182 | opening what a closed writer left gives a run of exactly its entries, while the blocks are below 2^64 bytes |
| `LatestRun.EntriesFit` | latest/run.go:65-108 | a run has fewer entries than its blocks have bytes, so the count fits the footer whenever the size does |
| `LatestIter.OffsetReads` | latest/run.go:322-340 | the bytes from an entry's offset on are the front code of the entries from it on |
| `LatestIter.Decode` | latest/run.go:322-340 | the key rebuilt on the last one and the value are those of the entry under the cursor |
| `LatestIter.Fill` | latest/run.go:322-340 | the cursor moves to the next block exactly while it is at the end of one, and finds an entry unless the run has ended |
| `LatestIter.Step` | latest/run.go:322-340 | one step yields the next entry of the run, or that there is none |
| `LatestIter.Skip` | latest/run.go:305-320 | the entries below the lower bound are stepped over and no other |
| `LatestIter.Advance` | latest/run.go:305-320 | the next entry if it is below the upper bound, else the iterator is at its end for good |
| `LatestIter.RunIter.Next` | latest/run.go:305-320 | the entries of [lo, hi) come one by one in order, then false forever |
| `LatestIter.NewRunIter` | latest/run.go:286-294 | starting at the block seek finds for the lower bound skips no entry of the range |
| `LatestIter.RunLists` | latest/run.go:286-320 | the yielded stretch is, in ascending order, exactly the pairs the run's map holds in the range |
| `LatestOverlay.UnfixedFixed` | latest/view.go:41-48 | padding a short key to 72 bytes behind its length can be undone |
| `LatestOverlay.SetFind` | latest/view.go:50-65 | setting one key's offset changes no other key's, short or long |
| `LatestOverlay.Overwrite` | latest/view.go:79-102 | an in-place rewrite changes one slot's value and length and no byte outside the slot |
| `LatestOverlay.Extend` | latest/view.go:79-102 | a new slot reads back its key and value, capacity rounded up, and nothing before it moves |
| `LatestOverlay.RewriteKeeps` | latest/view.go:79-102 | an in-place rewrite keeps every other slot's pair |
| `LatestOverlay.AppendKeeps` | latest/view.go:79-102 | an appended slot keeps every other slot's pair and live slots stay disjoint |
| `LatestOverlay.Overlay.Put` | latest/view.go:79-102 | the overlay's map is updated at the key and nowhere else, in place or relocating |
| `LatestOverlay.Overlay.Get` | latest/view.go:107-115 | the map's value; an empty one is a deletion |
| `LatestOverlay.Overlay.Iter` | latest/view.go:133-153 | an ascending snapshot of exactly the map's pairs in the range, deletions included |
| `LatestOverlay.SlabIter.Next` | latest/view.go:155-164 | the snapshot's pairs one by one |
| `LatestMerge.StepOver` | latest/view.go:240-270 | advancing a level that sits on the key puts its head past it, and no other level's |
| `LatestMerge.PickNewest` | latest/view.go:240-270 | the newest level among the smallest heads holds the newest value of that key |
| `LatestMerge.PickSkipsNothing` | latest/view.go:240-270 | no key of any level lies between the last one dealt with and the one picked |
| `LatestMerge.PickEmits` | latest/view.go:240-270 | emitting the pick, unless it is a deletion, keeps the output exact up to that key |
| `LatestMerge.NoneLeft` | latest/view.go:240-270 | when every head is at its end the output is exact for all keys |
| `LatestView.MergeIter.AdvancePast` | latest/view.go:240-270 | every level still on the last key moves past it |
| `LatestView.MergeIter.Best` | latest/view.go:240-270 | the lowest-numbered level among those with the smallest head key, or none when all have ended |
| `LatestView.MergeIter.Next` | latest/view.go:240-270 | the next live pair in ascending order, deletions skipped, or the end |
| `LatestView.View.Get` | latest/view.go:193-211 | the first level that has the key decides; an empty value there means absent |
| `LatestView.View.Iter` | latest/view.go:215-228 | one iterator per level, each on its first entry of the range |
| `LatestView.IterIsGet` | latest/view.go:193-270 | a finished merge yields, strictly ascending, exactly the pairs Get finds in the range |
| `LatestView.NextFits` | latest/view.go:278-302 | every merged pair is one the run writer accepts |
| `LatestView.Stream` | latest/view.go:278-302 | Add refuses none of the merged pairs, and the writer then holds a list that answers as the view |
| `LatestView.Merge` | latest/view.go:278-302 | while the file is below 2^64 bytes, Open finds a run in it that answers every key as the view does |
| `LatestView.SwapIsInvisible` | latest/view.go:186-211 | replacing the frozen overlays and runs by their merged run under any newer overlays changes no answer, deletions included |
| `LatestView.MergeIsInvisible` | latest/view.go:186-302 | so the run that Merge leaves can take the place of what it was merged from |
| `Nibbles.KeyToNibbles` | commit/commit.go:393-399 | the two half-bytes of each key byte in order |
| `Nibbles.NibsInjective` | commit/commit.go:393-399 | different keys have different paths |
| `Nibbles.CompactToHex` | commit/commit.go:353-362 | the path of a hex-prefix key, flag dropped |
| `Nibbles.HexToCompact` | commit/commit.go:365-381 | the hex-prefix key of a path with the leaf flag |
| `Nibbles.HexCompact` | commit/commit.go:353-381 | decoding an encoded path gives the path back and the leaf flag with it |
| `Nibbles.PackNibbles` | commit/commit.go:384-390 | two half-bytes a byte, an odd tail padded with zero |
| `Nibbles.NibsPack` | commit/commit.go:384-399 | expanding a packed path gives it back, with a zero after an odd one |
| `NodeTrie.UniqueParent` | commit/commit.go:148-194 | a node hangs off at most one stored node, so only its parent takes it from pending |
| `NodeTrie.ChildOnWay` | commit/file.go:95-136 | from a stored node the way to a stored descendant runs through a stored child |
| `NodeTrie.RootLast` | commit/commit.go:148-194 | with children written first, a written root means every node is written |
| `NodeFile.UvarintUv` | commit/commit.go:201-204 | a 64-bit value's base-128 code decodes to it and to its length, whatever follows |
| `NodeFile.PendingIsOff` | commit/commit.go:148-194 | pending gives a child's offset exactly when the child was written, else zero |
| `NodeFile.TakeBranch` | commit/commit.go:148-194 | the sixteen child offsets, and pending without exactly those children |
| `NodeFile.TakeExt` | commit/commit.go:148-194 | the one child offset of an extension, and pending without that child |
| `NodeFile.EmitSound` | commit/commit.go:148-194 | after a record is appended every record in the file still points at its children, all at smaller offsets, and pending is exactly the written nodes whose parent is not |
| `NodeFile.EmitNode` | commit/commit.go:148-194 | a leaf is skipped; an internal node is appended and recorded at the old end of the file |
| `NodeFile.RootEnds` | commit/commit.go:148-194 | once a root is written nothing is pending and the whole trie is in the file |
| `NodeWalk.OffDecreases` | commit/file.go:95-136 | a stored child's offset is below its parent's, so a walk ends |
| `NodeWalk.ReadRecord` | commit/file.go:95-136 | tag, blob and child bytes of the record at an offset |
| `NodeWalk.ReadChild` | commit/file.go:95-136 | skipping varints reaches the child offset asked for |
| `NodeWalk.Walk` | commit/file.go:95-136 | for every nibble path, the blob stored there, and absent for every path where none is |
| `NodeIndex.SearchHash` | commit/file.go:81-89 | the first index entry not below the account hash |
| `NodeIndex.Find` | commit/file.go:81-89 | the account's entry with its root and offset, or that it has none |
| `NodeRoll.NextIsReady` | commit/commit.go:206-289 | callbacks in children-first order always find their children written |
| `NodeRoll.EmitAll` | commit/commit.go:206-289 | a run of callbacks leaves the trie written that far, and rootOff the root's offset once it was reset |
| `NodeRoll.RollStorage` | commit/commit.go:225-250 | an account's storage trie is complete in the file, nothing of it is pending, and rootOff is its root record or zero |
| `NodeRoll.IndexEntry` | commit/commit.go:225-250 | the index grows by one entry exactly when the storage root is an internal node, and stays sorted |
| `NodeRoll.Writer.Flush` | commit/commit.go:225-258 | an account's storage trie and index entry are added and the account trie moves on, whatever was written between |
| `NodeRoll.Roll` | commit/commit.go:91-321 | one pass leaves a file that opens, while below 2^64 bytes, with the stamp it was given, and holds the account trie and exactly one storage trie per account |
| `NodeFooter.FooterFields` | commit/commit.go:307-350 | a written footer parses to the fields it was written from |
| `NodeFooter.OpenWritten` | commit/file.go:23-51 | opening nodes, index and footer gives the file back with its offsets, counts, root and user data |
| `NodeRoll.FindTrie` | commit/file.go:81-89 | the index names exactly the accounts whose storage root is internal, with root and offset |
| `NodeRoll.ReadNode` | commit/file.go:95-136 | for every owner and nibble path, exactly the blob emitted there in that trie, else absent; the zero hash names the account trie |
| `NodeRoll.StorageRoot` | commit/file.go:72-78 | the root hash exactly when the account's storage root is internal, else the empty root |
| `NodeStack.ForestEmits` | commit/commit.go:206-289 | callbacks of one rooted forest are those of a trie, each node once and after its children |
| `NodeStack.StackTrieEmits` | commit/commit.go:206-289 | for every trie the post-order callbacks meet what a roll relies on, and the root is the last of them |
| `NodeStack.StackTrieNodes` | commit/commit.go:145-194 | a node is stored at a path exactly when the path leads to the root or to an internal node of at least 32 bytes |
| `Dirty.PackPath` | commit/dirty.go:86-98 | the packed number below 2^64 for a path of at most 15 nibbles, none for a longer one or a non-nibble |
| `Dirty.PackedInjective` | commit/dirty.go:78-98 | no two nibble paths pack to the same number |
| `Dirty.KeyInjective` | commit/dirty.go:100-115 | no two nodes share an index key, short or long |
| `Dirty.Overwrite` | commit/dirty.go:131-147 | an in-place put changes one slot's blob and nothing outside it |
| `Dirty.Extend` | commit/dirty.go:131-147 | a new slot moves nothing and holds the blob exactly when the rounded size fits the header's 16 bits; a lookup reads the blob up to its length in 16 bits |
| `Dirty.Appended` | commit/dirty.go:131-147 | relocation keeps every other node's blob, slots disjoint, and dead equal to the slab less the live slots |
| `Dirty.Overlay.Lookup` | commit/dirty.go:119-126 | the last blob put at that owner and path, if any |
| `Dirty.Overlay.Put` | commit/dirty.go:131-147 | the map from node to blob changes at that node and at no other, exactly when the blob fits the slot in place or its rounded size fits 16 bits; else the slot has the wrong capacity in its header |
| `Dirty.CompactSlab` | commit/dirty.go:151-169 | the rewritten slab has every live blob, no dead byte, and exactly the live size |
| `Dirty.Overlay.MaybeCompact` | commit/dirty.go:151-169 | compaction happens exactly past both thresholds and changes no answer |
| `Leaf.UnderIsStarts` | commit/dirty.go:356-397 | comparing bytes two nibbles at a time decides whether a key starts with a path |
| `Leaf.PackedLeq` | commit/dirty.go:356-397 | every key under a path is at or above the packed, zero-padded path |
| `Leaf.BetweenUnder` | commit/dirty.go:356-397 | whatever lies between the packed path and a key under it is under it too |
| `Leaf.AccountFirst` | commit/dirty.go:356-397 | a slot row under a path has its account row, also under it, before it |
| `Leaf.SeekMatches` | commit/dirty.go:356-397 | if any row matches, the one seek lands on matches and is the first |
| `Leaf.LeafAt` | commit/dirty.go:356-397 | found exactly when some row's hashed key starts with the path, the first such row, and path plus decoded remainder is the whole key |
| `Executor.Node.WriteBlock` | store/mem.go:560-583 | a block at the next height is appended, a stored one is skipped, and a stop leaves the store as it was |
| `Executor.Node.ExecuteBlock` | exec/executor.go:1118-1204 | refused exactly when executing it fails or misses the header's root; only then nothing is written, and the rows come before the commit |
| `Executor.Node.Join` | exec/executor.go:1322-1388 | a batched block runs on the batch's trie with its parent's time and touches no disk; refused exactly when it does not execute; a block refused or broken off by an I/O error is not in the batch, but what the transactions it had drained wrote stays in the trie |
| `Executor.Node.ExecuteBatched` | exec/executor.go:1322-1390 | one block further in the batch, flushed when it is full; a batch left open by an error holds its own state or what the next block drained into it |
| `Executor.Node.WriteBatch` | exec/executor.go:1416-1438 | the rows of a verified batch land in order; a stop between them leaves the disk sound |
| `Executor.Node.FlushBatch` | exec/executor.go:1403-1464 | rows only after the boundary root matches, one commit after them, then memory and Firewood agree; a refusal names the first block that does not verify; the disk stays sound exactly as far as the trie did not have the root in place of the batch's own state |
| `Executor.Node.Settle` | exec/executor.go:709-735 | a stall, the stop height and Close flush a batch with blocks in it, spoiled or not; a root is accepted for another state than the batch's own only on a chain that can fool it; the batching-bug error comes only for a spoiled dirty trie that misses its root while every block verifies, and then nothing but I/O keeps it away |
| `Executor.Node.Bisect` | exec/executor.go:1468-1513 | a block it names is the first of the batch that does not verify from the batch's start; the error for a batch whose blocks all verify comes only when they do |
| `Executor.Node.ExecuteRaw` | exec/executor.go:1008-1066 | one block further, batched or not, with the disk sound on every way out; an open batch holds its own state or what the next block drained into it; on an honest chain no block is refused |
| `Executor.Node.WalkBack` | exec/executor.go:583-629 | the highest stored header within the budget that claims Firewood's root; it fails exactly when the budget reaches genesis and no stored header claims it; a match is never below what FetchStart fetches |
| `Executor.Node.ReExecute` | exec/executor.go:644-686 | reaches the state that executing the missing blocks in one go makes of Firewood's, batched or not |
| `Executor.Node.Reconcile` | exec/executor.go:561-686 | on success memory stands at the store's head with what executing the blocks after the matched header makes of Firewood's state; that is the chain's own state if the chain meets the matched header, which it does exactly when Firewood's state is the chain's there; on an honest chain nothing is refused |
| `Executor.CutInsideBatch` | exec/executor.go:583-686 | the chain need not meet it: a header inside a batch claims Firewood's root, a kill inside the batch leaves it as the store's head, and the node goes on from a state the chain does not have there |
| `Executor.Lives` | exec/executor.go:561-996 | over any number of lives, each flushing on stalls and at Close, stopping at any durable step with any tail of commits lost: stored blocks are the chain's and every commit is a state claimed at or below the store's head; on every chain on which no run's first transactions of a next block repair a missed root, stored blocks are covered by verified roots; on an honest chain no block is refused either |
| `Executor.HonestNotFoolable` | exec/executor.go:1403-1464 | an honest chain is one of those |
| `Executor.AcceptedIsRan` | exec/executor.go:1403-1464 | a root accepted for a batch attests its blocks exactly when the trie's state is the one they make |
| `Executor.SpoiledIsAccepted` | exec/executor.go:709-713 | on a chain that is not, where the header claims the root of the spoiled state, Close stores the block and commits that state, and no verified root covers it |
| `Executor.CleanIsBlamed` | exec/executor.go:1403-1513 | the first transactions of a block that is refused or breaks off on an I/O error spoil a batch whose own block is right: Close finds the root wrong, bisect finds every block right, and the batching-bug error follows unless I/O fails first |
| `Executor.HonestStep` | exec/executor.go:1118-1204 | on an honest chain a state that has a claimed root, or was run on from one, takes the next block and meets its root |
| `Executor.HonestCommits` | exec/executor.go:1118-1204 | on a chain with honest headers whatever survives of Firewood is a state of uninterrupted execution at or below the store's head |
| `Executor.GenesisOutOfReach` | exec/executor.go:601-642 | a stop before the first commit persists leaves a disk the walk-back cannot match: header 0, which is never stored, is asked for before the genesis root is considered |
| `FetchQueue.Queue.Append` | fetch/window.go:117-132 | taken exactly when it is the next height and its parent is the head's hash; the linked run grows by it |
| `FetchQueue.Release` | fetch/window.go:161-171 | everything more than KeepBehind below the executor goes, and the byte count with it |
| `FetchQueue.Queue.GetByHeight` | fetch/window.go:139-158 | every appended height above consumed less KeepBehind reads back its bytes, lower ones are released, higher ones wait |
| `FetchWindow.PlanCuts` | fetch/window.go:366-379 | cutting a broken span and asking for its rest again leaves no height uncovered and none covered twice |
| `FetchWindow.ExactlyOne` | fetch/window.go:245-344 | every height between the queue's head and next is in exactly one scheduled span |
| `FetchWindow.JoinSpan` | fetch/window.go:366-379 | all of the span is in the queue, or the named block is one that does not follow the queue's head, with the follower appending at any moment |
| `FetchWindow.Spanned` | fetch/window.go:349-361 | exactly the spans the queue has passed are forgotten, and one covering the height is found whenever there is one |
| `FetchWindow.Choose` | fetch/window.go:317-327 | a span to re-ask first, else exactly the next heights up to the span size and the target, else nothing; a new span is recorded under the tip target of the moment |
| `FetchWindow.Forward.JoinAll` | fetch/window.go:285-298 | the joining loop keeps the plan and ends |
| `FetchWindow.Forward.Plan` | fetch/window.go:300-327 | the window rule under a moving queue keeps the plan, its window and each span's target |
| `FetchWindow.Forward.Decide` | fetch/window.go:300-327 | when filling starts, not while the consumer is past the head just read, and stops, and exactly when a span is handed out, under the byte limit and sixteen in flight; only a newly scheduled span gets a tip target recorded |
| `FetchWindow.Forward.Select` | fetch/window.go:333-342 | sending, receiving or waiting keeps the plan and at most sixteen spans in flight |
| `FetchWindow.Forward.Run` | fetch/window.go:245-344 | any number of rounds, with the follower and the executor at work between any two steps, keeps the plan |
| `FetchWindow.Forward.Sound` | fetch/window.go:245-344 | in every such state the redo, ready, in-flight and answered spans are disjoint, below next, within the window, none past the tip target it was scheduled under, and they cover each height ahead of the head exactly once |
| `Retention.ReadAhead` | exec/executor.go:795-897 | whatever the goroutines' interleaving, the prefetch pipeline asks at most 1539 heights past the executor |
| `Retention.BisectFinds` | exec/executor.go:1488-1498 | with CommitEvery plus that depth at most KeepBehind, every block of a batch is still held when bisect asks |
| `Retention.BisectMisses` | exec/executor.go:334-340 | for any larger CommitEvery, which New still accepts up to KeepBehind, some run has released the batch's first block |
| `Retention.ReadOn` | exec/executor.go:652-664 | reading in order while the fetcher appends never finds a height released, and waits only for one not appended |
| `Retention.ReadAgain` | exec/executor.go:1488-1498 | bisect inside reconcile, with no prefetcher: all blocks of the batch are still held exactly when there are at most KeepBehind of them, else the first is gone |
| `Retention.ReconcileReads` | exec/executor.go:644-686 | reconcile on a queue opened where FetchStart says, after a match the walk-back allows: every block it reads has the bytes appended at its height; it stops short of the store's head only at a block not yet appended or after a bisected batch; no answer is that a block was released when a batch is no larger than KeepBehind |
| `Retention.FallbackFails` | exec/executor.go:630-664 | when the walk-back ends without a match, block 1, which the fallback to genesis would execute first, is below what FetchStart fetches and answered as released |
| `Totals.TotalPut` | exec/capture.go:288-298 | a running total that adds the new cost and takes off the old one is the sum over the map |
| `Capture.Evict` | exec/capture.go:264-283 | evicting any whole accounts keeps every remaining entry right and the size the sum of costs, and gets it down to the target |
| `Capture.EntryFor` | exec/capture.go:260-286 | the account has an entry, a present one untouched, nothing is evicted below the cap, and the size stays within one entry of it |
| `Capture.SetSlot` | exec/capture.go:288-298 | one slot of one entry changes and the size is again the sum of all costs |
| `Capture.CacheDrop` | exec/capture.go:398-417 | the account and all its slots leave the cache at once |
| `Capture.FollowsDrop` | exec/capture.go:398-417 | after a delete the trie agrees with the reference on every account and on every slot of accounts not destructed |
| `Capture.RepairsSlot` | exec/capture.go:419-453 | the tombstone map holds exactly the slots written since the destruct |
| `Capture.Wrapped.GetAccount` | exec/capture.go:474-503 | the reference's account, hit or miss, absence included |
| `Capture.Wrapped.GetStorage` | exec/capture.go:505-532 | the reference's slot exactly when it is cached, or a batch is open, or the account was not destructed since the revision, or the slot is legible; a wrong answer goes into the cache |
| `Capture.Wrapped.Fallthrough` | exec/capture.go:538-545 | a miss answers as the reference, in a batch always; outside one exactly when the account was not destructed since the revision or the slot is legible |
| `Capture.Wrapped.UpdateAccount` | exec/capture.go:382-396 | the reference's account is updated and every answer follows |
| `Capture.Wrapped.DeleteAccount` | exec/capture.go:398-417 | the reference's account and all its slots are gone and every answer follows |
| `Capture.Wrapped.WriteStorage` | exec/capture.go:419-453 | the reference's slot is updated and every answer follows; an empty value is a delete |
| `Capture.Wrapped.EndBatch` | exec/capture.go:206-210 | the operations queued over the batch replay to the reference as the new revision |
| `Capture.Wrapped.Abandon` | exec/executor.go:1472-1484 | dropping a batch and the cache leaves the state of its start |
| `Capture.LostDestruct` | exec/capture.go:188-195 | a slot that is not legible: a destructed and recreated account reads its old value back from the trie |
| `Capture.DestructedRead` | exec/capture.go:188-195 | for a destructed account the trie reads a slot right exactly when: under the tombstone, nothing was written to it since; once the account is back, it was written since or had no value before |
| `Capture.Run` | exec/capture.go:199-545 | over any sequence of reads, writes, deletes, commits, batches, abandoned batches and cache resets, all answers are an uncached reference's when every storage read is one the trie and the tombstones answer for, and without a cache only then; it ends early only at a wrong answer |
| `Capture.CarefulIsFaithful` | exec/capture.go:199-545 | it is enough that outside a batch no slot is read of an account destructed since the last commit |
| `Logs.LogMatches` | rpc/logs.go:177-203 | addresses or-ed, positions and-ed, values or-ed, a missing position never matches |
| `Logs.LogPostings` | store/mem.go:751-763 | every group and position of the log is marked, and no mark is there that none of the logs gives |
| `Logs.FileChain` | store/mem.go:640-666 | writing every block in order leaves the rows of every log and no row that no transaction's logs give |
| `Logs.Collect` | rpc/logs.go:313-323 | exactly the transactions of the range with a posting under the prefix and the bit are added |
| `Logs.PostingSets` | rpc/logs.go:220-269 | a transaction is in all the sets exactly when it is in the range and posted for every dimension; there is no set exactly when no dimension is indexed |
| `Logs.PostedIsMeets` | rpc/logs.go:220-269 | a transaction is posted for every dimension exactly when for each one some log of it, not always the same, meets it |
| `Logs.MatchMeets` | rpc/logs.go:177-269 | a log that matches the filter meets every dimension by itself, narrowed by topic 0 or not |
| `Logs.HeightOfTx` | store/db.go:1366-1390 | the one block whose slots hold the TxNum |
| `Logs.TxRangeOf` | rpc/logs.go:325-344 | a transaction is in the range exactly when its block is, empty blocks at the ends included |
| `Logs.LogCandidates` | rpc/logs.go:214-309 | exactly the heights of the range, ascending, with a transaction whose logs meet each dimension; all of them when no dimension is indexed |
| `Logs.RunGetLogs` | rpc/logs.go:130-149 | the same logs in the same order as scanning every block of the range with the filter |
| `Paging.HitsAre` | rpc/tokens.go:315-386 | the transactions a walk keeps are exactly the matching ones, each once, in walk order |
| `Paging.Visit` | rpc/tokens.go:337-365 | the first limit matching transactions, and exactly whether there is another |
| `Paging.PagedLogs` | rpc/tokens.go:315-386 | a page of the matching transactions within the cursor's bounds, with the cursor past its cut |
| `Paging.FollowUp` | rpc/tokens.go:315-386 | ascending, following the cursor visits every matching transaction exactly once and ends |
| `Paging.FollowDown` | rpc/tokens.go:315-386 | descending, the same, if transactions 0 and 1 do not both match or no page is cut between them |
| `Paging.StuckStartsOver` | rpc/tokens.go:378-384 | otherwise every page has more to come and not transaction 0, and the page cut at transaction 1 hands back the cursor 0, which is the start |
| `Paging.FollowStuck` | rpc/tokens.go:315-386 | otherwise, however many pages are followed from the start, there is more to come and transaction 0, which matches, was not visited |
| `SaeFee.CheckGasUsed` | exec/sae.go:323-340 | accepted exactly when the header's gas is the transactions' limits and the operations' gas |
| `SaeFee.PostExecutionAt` | exec/sae.go:154-172 | the executed root and clock of a height, from the ring or a synchronous header; none exactly when the ring has dropped it |
| `SaeFee.CheckSettled` | exec/sae.go:349-411 | accepted exactly when the settled height is behind the block and not below the last one, and it is below the floor, or the ring still has it, its root is the header's and its whole clock the markers', though only three fields are compared |
| `SaeFee.Execute` | exec/sae.go:203-316 | all blocks are accepted exactly when every gas identity and settlement is right, settlement never goes back, and no block settles a height 8192 or more behind |
| `SaeFee.GasConsumed` | rpc/misc.go:40-81 | subtracting the limits and adding the last cumulative gas gives what execution consumed |
| `SaeFee.SaeWalk` | rpc/saefee.go:161-217 | for any range, the base fee execution used for each block, whichever settlement point the walk starts from |
| `SaeRing.ParseSlot` | exec/saering.go:91-126 | a slot reads back its root and clock for its own height and for no other |
| `SaeRing.Ring.Put` | exec/saering.go:91-108 | the height's slot holds the record and no other slot changes; an oversized clock is refused |
| `SaeRing.Ring.Get` | exec/saering.go:113-126 | found exactly when the last record put into the height's slot was for that height |
| `SaeRing.LatestHeld` | exec/saering.go:85-126 | after contiguous ascending puts exactly the latest 8192 heights are found |
| `Container.Reassemble` | store/container.go:124-158 | the template's three pieces around header and transactions, the bare block for an empty row, an error for a malformed one |
| `Container.TemplateRoundTrip` | store/container.go:114-158 | cutting two ordered spans out and putting the same bytes back gives the container |
| `Container.SpansCut` | store/container.go:189-206 | for a single item the spans are in order and cut exactly the header element and the transactions' payload |
| `Container.IndexOf` | store/container.go:91-94 | the first occurrence, or that there is none |
| `Container.Cutout` | store/container.go:91-108 | a template that reassembles to the container; never refused when the inner block occurs in it and re-encodes verbatim |
| `Container.SplitContainer` | store/container.go:56-109 | what is accepted reassembles byte for byte, and whatever decodes, occurs and re-encodes verbatim is accepted |
| `Ws.Deliver` | rpc/ws.go:280-343 | exactly the events up to the block reported went out, which is the last one, or stands before a failed read, or before a block with an event that cannot be delivered, whose earlier events went out too; a proper prefix when a write fails |
| `Ws.Session.Job` | rpc/ws.go:259-269 | what was sent is appended to the stream, the cursor moves over the finished blocks and no other subscription changes; a failed write ends the connection, an event that cannot be delivered only the poller |
| `Ws.Session.Tick` | rpc/ws.go:235-271 | every subscription that had its turn was sent the events of the blocks its cursor moved over, and the one that stopped the poller the head of the next too; if none did, each is at its target or before a block that cannot be read |
| `Ws.Session.Subscribe` | rpc/ws.go:140-193 | starts at the head it was made at, and starts a poller when none is running unless it is for pending transactions |
| `Ws.StreamExact` | rpc/ws.go:280-343 | what was sent is those events and then the head of the next block once per poller that stopped in it, so nothing came twice exactly when none did or the block's first event is the undeliverable one |
| `Ws.Run` | rpc/ws.go:140-271 | over any run of ticks, subscriptions and their ends, while the connection is up, each subscriber was sent exactly the events from its start to its cursor if and only if no poller stopped in the next block past that block's first event |
| `Ws.SentTwice` | rpc/ws.go:140-193 | a block whose first transaction can be delivered and second cannot: the connection stays up, the next subscription starts a new poller, and the first transaction goes out again |

## Left out

- LatestView.Merge: promises that the file opens only while it is below 2^64 bytes, because the footer stores 64-bit fields.
- LatestOverlay.Overlay.Put: does not model the byte counter kept for memory sizing, nor a Put that runs while an older snapshot iterator still reads the same slab, because the slab is a value here.
- LatestOverlay.Overlay.Iter: sorts by insertion; the source collects and then sorts.
- NodeRoll.Roll: takes each StackTrie's callbacks as given lists in children-first order, and the state root and counters as values; hashing and account encoding are not modelled. Offsets are naturals, where the source reads them back as signed 64-bit numbers.
- NodeRoll.ReadNode: is stated for nibble paths and files below 2^64 bytes; the source's branch for an unknown tag is never taken on a written file.
- Leaf.LeafAt: returns the row and the rebuilt key; the RLP of the leaf and the storage root put into a rebuilt account leaf are not modelled.
- Dirty.Overlay.Put: the two Go index maps are one map with a tagged key here.
- Executor.Node.Reconcile: covers blocks below the Helicon boundary, where a header carries its own root; the settled-root branch of ownRootAt is not modelled.
- Executor.Node.WriteBlock: an empty store takes its first block at height 1 only, where every caller starts, and not at any height; stored rows survive a stop, as they do a killed process; a lost page cache is not modelled.
- FetchWindow.Forward.Run: says nothing about progress, peers or timeouts; an answered span is numbered as it was asked for.
- Capture.Wrapped.GetStorage: the state database in front of it, which answers reads of an account it destructed itself, is not modelled.
- Logs.RunGetLogs: parsing of filters, the range limit and the error for heights above the head are not modelled; posting keys are structured values rather than joined bytes, and payload bits are a set of positions.
- Paging.PagedLogs: works on the matching TxNums of a fixed head; appending each one's logs to the page is not modelled.
- SaeFee.SaeWalk: assumes settled heights at or above the last synchronous block, and a node that executed from there; gas sums are unbounded numbers.
- SaeRing.Ring.Get: the checksum is a parameter for which an all-zero slot is invalid; file writes and torn slots are not modelled.
- Container.SplitContainer: the proposervm parser and the block decoder are parameters.
- Ws.Session.Tick: what can be read is fixed for the length of a tick; the moment between a poller's last tick and the clearing of its flag is not modelled, nor is what went out before a failed write kept.
- Capturing state rows, call frames and contract code during execution, which only append what execution produced.
- Warm-up, flushing cadence, progress logging and memory sizing in exec and latest.
- Run sealing, merging and scanning inside store, beyond the rows the log query reads.
- P2P fetching, JSON-RPC and gRPC adapters, parameter parsing and response encoding.
- EVM execution, tracing, genesis and upgrade wiring, and the ACP-194 clock arithmetic.
