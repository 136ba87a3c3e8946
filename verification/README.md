# Proofs about a go-ethereum node

A Dafny model of the parts of this go-ethereum fork that decide what a node believes and what it does with it, with
proofs that the incremental, cached and concurrent code computes what a simple definition says.

- **Canonical chain** (`BlockTree`, `ForkChoice`, `ChainView`, `BlockChain`). Blocks form a tree of parent hashes. The
  canonical number index, the total difficulties and the transaction index are defined as plain walks and sums over
  that tree; `reorg`, block import and head switches maintain them in place and are proved to keep them equal to the
  definitions over any sequence of operations.
- **Header chain** (`HeaderChain`, `Ancestors`, `Rewind`). Header import with batched writes, caches and shared big
  integers; the batched header reorganisation; ancestor lookups that jump along the canonical index or cache their
  walk; rewinding the chain in an order in which every database state on the way is usable.
- **Chain indexer** (`ChainIndexer`). A section is processed with the lock released while the chain may change in any
  way; the stored section heads stay a chain of ancestors whatever the interleaving.
- **Execution** (`Gas`, `Ledger`, `StateTransition`, `BlockExecution`). Buying, charging and refunding gas around an
  arbitrary EVM, executing a block, and filling a new block with roll-back of failed transactions.
- **Event feed** (`Feed`). In-place partitioning of select cases, with receivers becoming ready, subscriptions joining
  and leaving, and removals arriving in any order.
- **Peers** (`Protocols`, `ExpHeap`, `DialScheduler`). Allocation of message code ranges on both ends of a connection,
  and the dial scheduler's event loop with its static pool and expiry heap.

`Basics` holds the option and result types and the fold over a history. Machine widths are explicit (`Uint64`): message
code offsets and intrinsic gas wrap at 64 bits exactly where the code does not guard against it. Clocks, randomness, the EVM, other goroutines, header verification and the readiness of
receivers are parameters or nondeterministic choices, so a statement holds for all of them.

## Findings

Where the code does not meet what it promises, or not always, the exact condition is proved and an input that fails is
given.

- Switching heads deletes an index entry that the new chain still needs if a dropped transaction that is absent from
  the new blocks also occurs in the common part (`BlockChain.LookupLost`). The index stays exact if and only if that
  does not happen (`BlockChain.BlockChain.WriteKnownBlock`), and chains that never repeat a transaction, as the nonce
  rules see to on a validated chain, are safe (`BlockChain.UniqueLosesNothing`).
- No stored block ranks above the head after an import, neither by total difficulty nor, among equally heavy ones, by a
  lower number, unless the terminal total difficulty forces a block of lower rank (`ChainView.ImportForemost`, an if and
  only if; `ChainView.LighterHead` is an input).
- An interrupted header import writes nothing but leaves caches that disagree with the database, unless every header
  was already known (`HeaderChain.HeaderChain.WriteHeaders`, an if and only if). One new header on top of genesis is
  enough (`HeaderChain.InterruptedImport`).
- The chain indexer's comment promises that after `verifyLastHead` all stored sections are valid. Only the last head is
  compared, so the promise holds if and only if the canonical index agrees, at the ends of the lower sections, with the
  walk down from the last one (`ChainIndexer.ChainIndexer.VerifyLastHead`), as the index of any chain does
  (`ChainIndexer.WalkIndexDescends`). It fails for an index caught between the ascending writes of a reorganisation
  (`ChainIndexer.HalfRewrittenIndexPasses`).
- `GetAncestor` takes the zero hash above the head for a canonical one. It answers with a wrong hash if and only if it
  is asked for a farther ancestor than the parent of the zero hash above the head, at a height the index reaches
  (`Ancestors.WrongAnswerIff`; `Ancestors.ZeroHashAnswered` is an input).
- The access list part of intrinsic gas is not guarded against overflow: the result is the true cost modulo 2^64
  (`Gas.IntrinsicGas`). That takes about 2^64 / 2400 addresses or 2^64 / 1900 storage keys (`Gas.AccessListWraps`), far
  more than a block can hold.
- Between two nodes, every message reaches the protocol it was written for, and no other, if and only if all code ranges
  together fit 64 bits (`Protocols.DeliveredIff`). A protocol whose own range does not fit receives none of its messages
  (`Protocols.OverflowingRange`), and one that does fit can share codes with one that wrapped around
  (`Protocols.WrappedRangeOverlaps`).

One check is redundant: after buying gas, the test that the sender can pay the transferred value can never fail
(`StateTransition.Affordable`).

## Model

| member | source | states |
|---|---|---|
| BlockTree.ClosedAdd | core/blockchain.go:1285-1305 | Storing a block on a stored parent keeps every block linked to genesis, changes no existing chain's index or difficulty, and gives the block its parent's total difficulty plus its own |
| BlockTree.CanonChained | core/blockchain.go:2070-2080 | The canonical index of a complete chain has one stored block for every height up to the head's and none above, from genesis to the head, each the parent of the next |
| ForkChoice.RankDecides | core/forkchoice.go:77-113 | Below the terminal total difficulty a block of higher rank wins and one of lower rank loses; between equals the miner's own head stays, else its own new block wins, else the coin decides |
| ChainView.StepConsistent | core/blockchain.go:1380-1403 | Whatever an import, a side import or a head switch does, every stored total difficulty is the sum along its chain and every block is linked to genesis |
| ChainView.RunConsistent | core/blockchain.go:1380-1403 | The same after any sequence of imports, side imports and head switches |
| ChainView.ImportHeaviest | core/forkchoice.go:77-113 | From a heaviest head, an import leaves a heaviest head if and only if the terminal total difficulty did not force a lighter block; below it the head's rank (difficulty, then lower number) never falls |
| ChainView.LighterHead | core/forkchoice.go:88-90 | A head of total difficulty 6 that a block of total difficulty 2 replaces, under a terminal total difficulty of 2 |
| ChainView.RunHeaviest | core/forkchoice.go:77-113 | Without a terminal total difficulty, after any sequence of imports the head has maximal total difficulty among everything stored and ranks no lower than at the start |
| ChainView.ImportForemost | core/forkchoice.go:77-113 | From a head that no stored block outranks, an import leads to such a head if and only if the terminal total difficulty did not force a block of lower rank |
| ChainView.RunForemost | core/forkchoice.go:77-113 | Without a terminal total difficulty, after any sequence of imports no stored block is heavier than the head, or as heavy with a lower number |
| ChainView.TieAtTheTop | core/forkchoice.go:97-113 | A new block of the head's own rank becomes the head exactly if the head is not the miner's own and the block is, or the coin says so |
| ChainView.ImportStores | core/blockchain.go:1285-1305 | An import, on the canonical chain or beside it, adds exactly the block, its transactions and its parent's total difficulty plus its own; a side import moves no head |
| ChainView.OrphanIgnored | core/blockchain.go:1285-1290 | A block whose parent is unknown changes nothing |
| ChainView.SwitchSticks | core/blockchain.go:1272-1281 | A switch makes a stored block of any rank the head and changes nothing else; it stays the head while blocks are only stored beside the canonical chain |
| ChainView.IndexSplit | core/blockchain.go:2070-2087 | Indexing a chain's transactions is indexing its lower part and then its upper part |
| ChainView.IndexLocates | core/blockchain.go:841-860 | On a chain that repeats no transaction, the index maps a transaction to height n exactly when the block at height n holds it |
| ChainView.SideAllRuns | core/blockchain.go:1797-1853 | Storing the blocks of a side chain one after the other is a run of side imports, and moves no head |
| ChainView.WrittenAgain | core/blockchain.go:1841-1843 | A block that is stored already may be stored again without any change |
| BlockChain.LinkedChainsMeet | core/blockchain.go:2025-2050 | Two chains that reach genesis always have a common block, so the search for it succeeds |
| BlockChain.BrokenChainNeverMeets | core/blockchain.go:2019-2050 | If a block is missing on either chain at or above the fork point there is no common block to find |
| BlockChain.UniqueLosesNothing | core/blockchain.go:2082-2087 | If the old chain repeats no transaction, no index entry needed by the new chain is deleted |
| BlockChain.LookupLost | core/blockchain.go:2082-2087 | A concrete tree in which a needed index entry is deleted |
| BlockChain.IndexPatch | core/blockchain.go:2070-2087 | Patching an index by additions, deletions of the difference and head entries equals rebuilding it, if and only if no deleted transaction is needed by the common part |
| BlockChain.HashDifference | core/types/transaction.go:449-464 | The first list without the hashes of the second, in its order and with its repetitions |
| BlockChain.FindFork | core/blockchain.go:1998-2050 | Succeeds exactly if the two chains meet in a stored block, and then returns the highest common block, both segments above it in order, and exactly the dropped transactions |
| BlockChain.ReduceBoth | core/blockchain.go:2025-2050 | The joint walk down ends in the highest common block, or fails exactly when there is none |
| BlockChain.BlockChain.WriteHeadBlock | core/blockchain.go:841-860 | Adds one canonical entry and the block's transactions and moves all six head markers, nothing else |
| BlockChain.BlockChain.ApplyNewChain | core/blockchain.go:2070-2080 | Writing the new blocks in ascending order makes the index agree with the new chain's walk up to below the new head and adds exactly its transactions |
| BlockChain.BlockChain.DeleteStale | core/blockchain.go:2082-2105 | Deletes exactly the stale transactions and every canonical entry above the given number |
| BlockChain.BlockChain.Reorg | core/blockchain.go:1989-2105 | Succeeds exactly if the chains meet; then the index is the new chain's walk up to below the new head with nothing above it, and the transaction index has gained the added and lost the dropped transactions; an error has written nothing |
| BlockChain.BlockChain.WriteKnownBlock | core/blockchain.go:1272-1281 | Fails without a trace exactly if the chains do not meet; otherwise the canonical index is the parent walk from the new head, all markers are on it, and an exact transaction index stays exact if and only if no entry was lost. SetCanonical's tail (2178-2185) is the same code |
| BlockChain.BlockChain.Store | core/blockchain.go:1300-1305 | Storing a block with its total difficulty keeps the chain invariant and an exact transaction index |
| BlockChain.BlockChain.WriteBlockWithState | core/blockchain.go:1285-1305 | Fails without a trace exactly if the parent's difficulty is unknown; otherwise adds the block with its chain's total difficulty and disturbs neither index |
| BlockChain.BlockChain.ChooseHead | core/blockchain.go:1384-1403 | The block becomes the head exactly if the fork choice prefers it, and then all indexes are those of its chain |
| BlockChain.BlockChain.WriteBlockAndSetHead | core/blockchain.go:1380-1403 | Moves the view exactly as the specification's step does, keeps the invariant, and keeps a head that no stored block outranks unless there is a terminal total difficulty; reports canonical, with the block as head, exactly if the fork choice prefers it, and side, with head and index unchanged, otherwise; keeps the transaction index exact if and only if no entry was lost |
| BlockChain.BlockChain.WriteBlockWithoutState | core/blockchain.go:1256-1269 | Fails exactly if the import was interrupted, and then without a trace; otherwise stores the side block with the given difficulty, which is that of its chain; keeps the invariant and an exact transaction index |
| BlockChain.BlockChain.ImportSideBlock | core/blockchain.go:1808-1852 | Fails exactly on a block that claims the state of another canonical block of its height, or that would have to be stored after an interruption, and then without a trace; otherwise the block is stored, a canonical one is reported as skipped, and the difficulty computed is that of the block's whole chain |
| BlockChain.NoneRefusedIff | core/blockchain.go:1808-1843 | Side blocks pass exactly if none off the canonical chain has the state root of the canonical block of its height and none that was not stored follows an interruption |
| BlockChain.LastSideIs | core/blockchain.go:1797-1853 | Every block after the one offered to the fork choice is canonical, and that one is not unless it is the first |
| BlockChain.BlockChain.ImportSideChain | core/blockchain.go:1797-1853 | Succeeds exactly if no block of the pruned prefix is refused, and fails at the first one that is; none of the blocks before shares the state root of another canonical block of its height or was new after an interruption; they are stored, nothing else changes and the indexes stay exact; the running total is the last block's difficulty, and the block offered to the fork choice is the last one off the canonical chain and has a recorded difficulty |
| BlockChain.BlockChain.Perform | core/blockchain.go:1380-1403 | One operation of a sequence refines one step of the specification, with an exact transaction index when no chain repeats a transaction |
| BlockChain.BlockChain.Replay | core/blockchain.go:1380-1403 | Any sequence of imports, side imports and head switches refines the specification and keeps index, markers, difficulties and, when no chain repeats a transaction, the transaction index exact |
| HeaderChain.SoundNext | core/headerchain.go:216-243 | Writing the next header of a batch keeps the database sound, and changes nothing if it was stored |
| HeaderChain.ExtendedRun | core/headerchain.go:216-243 | A stored batch is a connected run and nothing stored before has changed |
| HeaderChain.ExtendedIs | core/headerchain.go:216-243 | A batch adds exactly its headers |
| HeaderChain.HeaderChain.GetTd | core/headerchain.go:435-447 | Returns the stored difficulty or nothing, and caches the object it returns |
| HeaderChain.HeaderChain.StageHeader | core/headerchain.go:226-242 | Stages a header unless it and its predecessors are known, and caches a private copy of its difficulty, so the running sum stays unshared |
| HeaderChain.HeaderChain.StageHeaders | core/headerchain.go:210-243 | The pending batch stores exactly the headers behind the known prefix, each with its chain's difficulty, and the caches agree with the database as it will be |
| HeaderChain.HeaderChain.Stage | core/headerchain.go:206-243 | Up to the database write: the batch would store the whole run soundly, the caches already agree with that, and with the present database exactly if nothing is new |
| HeaderChain.HeaderChain.WriteHeaders | core/headerchain.go:202-254 | One write stores the whole batch with the difficulties of whole chains; counts the new headers; no number object visible before is changed; an error writes nothing, and leaves agreeing caches if and only if nothing new was offered or the parent was unknown |
| HeaderChain.InterruptedImport | core/headerchain.go:245-254 | An import of one new header on genesis that is interrupted and leaves the caches disagreeing with the database |
| HeaderChain.HeaderChain.DeleteAbove | core/headerchain.go:148-155 | The scheduled deletions remove exactly the canonical entries above the new head |
| HeaderChain.HeaderChain.RewriteBack | core/headerchain.go:156-174 | Schedules the walk's hashes down to where the unflushed index already agrees, and fails exactly if a header is missing before that |
| HeaderChain.ReachesCanonIff | core/headerchain.go:156-174 | The walk reaches the canonical chain if and only if some height on it is canonical, or zero, and no header is missing down to there |
| HeaderChain.HeaderChain.ExtendWith | core/headerchain.go:176-187 | Schedules the hashes of the whole run and the head marker for its last header |
| HeaderChain.Rebuilt | core/headerchain.go:133-187 | The patched index equals the one rebuilt by walking from the last header |
| HeaderChain.HeaderChain.PlanReorg | core/headerchain.go:142-187 | The batch, flushed, turns the index into the last header's parent walk; there is a batch exactly if the run sits on the head or its walk reaches the canonical chain |
| HeaderChain.HeaderChain.Reorg | core/headerchain.go:133-196 | Either the canonical index becomes the parent walk from the last header, with head marker and memory following, or an ancestor is missing and nothing changes |
| HeaderChain.HeaderChain.ChooseHead | core/headerchain.go:279-297 | The last header becomes the head exactly if the fork choice prefers it and it is not already canonical; without a terminal difficulty the head is then at least as heavy as before and as the batch, and ranks no lower than either, unless the batch is canonical already |
| HeaderChain.StatusIs | core/headerchain.go:279-299 | Canonical exactly if preferred and not canonical already, side exactly if not preferred and something is new, and none otherwise |
| HeaderChain.HeaderChain.Report | core/headerchain.go:268-299 | With the batch stored: status, counts and new head are those the fork choice and the canonical index of before determine |
| HeaderChain.HeaderChain.WriteHeadersAndSetHead | core/headerchain.go:263-299 | Succeeds exactly if the parent's difficulty is known and there is no interruption; then stores the batch, keeps the header chain's invariant and reports the exact numbers of known and new headers; the status is canonical, and the last header the new head, exactly if the fork choice prefers it and it was not canonical already, and side exactly if it does not and something was new; an error has changed neither database nor head |
| Ancestors.CanonicalJump | core/headerchain.go:411-416 | From a canonical header, index and walk find the same ancestor |
| Ancestors.AnswerIs | core/headerchain.go:399-431 | What that answer is, without reference to how it is computed |
| Ancestors.CostIs | core/headerchain.go:404-429 | A found ancestor costs the number of steps to the first ancestor that is canonical or the one asked for |
| Ancestors.GetAncestor | core/headerchain.go:399-431 | For every real hash, stored or not: the walk's answer exactly if the parent is asked for or the walk lands on the canonical chain, or on the ancestor, within the budget, and nothing otherwise; the parent of a stored header is its parent hash and free, any other ancestor costs the steps to the first landing; the zero hash above the head is answered from the index |
| Ancestors.WrongAnswerIff | core/headerchain.go:399-431 | A hash other than the true ancestor is answered if and only if the zero hash is asked for above the head, more than one step down, at a height the index reaches; a true ancestor is not answered if and only if it is not the parent and the walk does not land within the budget |
| Ancestors.ZeroHashAnswered | core/headerchain.go:411-416 | A two-block chain on which that happens |
| Ancestors.HashLookup.GetHash | core/evm.go:86-116 | Whatever was asked before, the answer is that of the uncached walk, and the cache only grows |
| Ancestors.AnswersPersist | core/evm.go:82-117 | Headers stored later do not change a cached answer |
| Ancestors.AnswerAll | core/evm.go:81-117 | Any sequence of queries against a growing store is answered as by uncached walks in the store of the time |
| Rewind.BestStateHighest | core/blockchain.go:597-618 | The chosen block is on the walk, has state unless it is genesis, and no higher block on the walk has |
| Rewind.NoGaps | core/headerchain.go:638-641 | In a complete store, the first empty height has nothing above it, so scanning up to it finds all leftovers |
| Rewind.ClosedBelow | core/headerchain.go:646-662 | Deleting everything above a height leaves a complete store |
| Rewind.Surviving | core/headerchain.go:646-667 | The deletions leave exactly the blocks at or below the new head header, indexed by its walk |
| Rewind.HeadBlockSettled | core/blockchain.go:585-641 | A head block that is the head header, or the best block below it, stays the best block below every header it is not above |
| Rewind.TargetMet | core/headerchain.go:577-602 | A rewind to a number ends at that number, or stays if the head is lower; one to a time ends at the highest header that is not younger |
| Rewind.Chain.RewindBlock | core/blockchain.go:585-641 | Finds the highest ancestor with state, or genesis, whose state is then recommitted |
| Rewind.Chain.MoveMarkers | core/headerchain.go:618-633 | One write moves all markers to data that is present, before anything is deleted |
| Rewind.Chain.LeftoverHeights | core/headerchain.go:635-643 | Collects exactly the heights above that still hold headers of any fork |
| Rewind.Chain.Condemn | core/headerchain.go:637-662 | What is marked for deletion is exactly everything at or above the current height on all forks |
| Rewind.Chain.Wipe | core/headerchain.go:664-667 | The final write leaves a complete, indexed chain with resolving markers |
| Rewind.Chain.StepDown | core/headerchain.go:602-663 | Each round lowers the markers by one header and the condemned range follows |
| Rewind.Chain.Descend | core/headerchain.go:602-663 | The loop ends at the given number, or at the highest header not younger than the given time, with everything above it condemned |
| Rewind.Chain.SetHead | core/headerchain.go:577-672 | Ends at the given number, or where it was if that is lower, or at the highest header not younger than the given time, in a valid chain again; no header, body, receipt or difficulty of any fork survives above it and all below do; the canonical index is its walk, the head block its best ancestor with state or, if lower, the old one, the snap block never above it; in every database state written on the way, of which the final one is the last, all markers resolve; nothing happens if the head already meets the target |
| ChainIndexer.HeadsDescend | core/chain_indexer.go:388-417 | Every stored section head is the exact ancestor, at its section's last number, of every later one |
| ChainIndexer.VerifiedCount | core/chain_indexer.go:422-429 | The surviving prefix is part of what was stored and ends in a canonical head |
| ChainIndexer.DroppedNotCanonical | core/chain_indexer.go:422-429 | No head above the surviving prefix was canonical |
| ChainIndexer.VerifiedAllCanonical | core/chain_indexer.go:419-429 | Once the last stored head is canonical, all are if and only if the canonical index agrees at every lower section end with the walk from it |
| ChainIndexer.WalkIndexDescends | core/chain_indexer.go:419-429 | The canonical index of any chain agrees in that way |
| ChainIndexer.HalfRewrittenIndexPasses | core/chain_indexer.go:419-429 | A fork above genesis and the index of the old chain with one entry already rewritten to the new one: the comparison of the last head passes although a lower section is no longer canonical |
| ChainIndexer.AppendHead | core/chain_indexer.go:350-353 | A finished section whose predecessor is unchanged is the next one and extends the chain of section heads |
| ChainIndexer.KnownIff | core/chain_indexer.go:243-300 | Exactly these sections are known after a notification: at a reorganisation those known before that end at or below its point, otherwise those known before and every one whose last block has all its confirmations |
| ChainIndexer.StoredIff | core/chain_indexer.go:248-266 | A reorganisation drops exactly the stored sections that end above its point, and nothing else drops any |
| ChainIndexer.ChainIndexer.SetValidSections | core/chain_indexer.go:479-491 | Sets the count and removes exactly the heads above it |
| ChainIndexer.ChainIndexer.VerifyLastHead | core/chain_indexer.go:422-429 | Drops exactly the longest non-canonical tail; all that is left is canonical if and only if the canonical index agrees at the lower section ends with the walk from the last one, so if it is a chain's walk |
| ChainIndexer.ChainIndexer.OnNewHead | core/chain_indexer.go:243-300 | After a reorganisation no section ending above its point is known or stored, and every one below that was still is; otherwise nothing is dropped and exactly the sections with all their confirmations become known; surviving heads are unchanged; the cascaded head falls to the end of the last whole section below a reorganisation |
| ChainIndexer.ChainIndexer.BeginSection | core/chain_indexer.go:319-337 | Re-validates, then starts the first section that is not stored, on top of its predecessor; does nothing if nothing is missing |
| ChainIndexer.ChainIndexer.ProcessBlock | core/chain_indexer.go:397-412 | Without the lock: advances exactly if the canonical header is there, continues the previous one and the backend takes it, and fails the section otherwise, so the section still descends from the recorded old head |
| ChainIndexer.ChainIndexer.ResetFailed | core/chain_indexer.go:391-395 | A failed backend reset throws all sections away |
| ChainIndexer.ChainIndexer.StoreSection | core/chain_indexer.go:349-358 | Adds exactly the next section head, cascades to its end, and keeps the heads a chain |
| ChainIndexer.ChainIndexer.FinishSection | core/chain_indexer.go:348-368 | Stores one more head exactly if the section succeeded on top of an unchanged predecessor; in every other case only the heads that verify are kept, unchanged, and nothing more counts as known |
| ChainIndexer.SectionIndexed | core/chain_indexer.go:304-417 | While the chain stays put and can be read, the next missing section is taken up, processed block by block and stored with the canonical hash of its last number as its head |
| ChainIndexer.AllIndexed | core/chain_indexer.go:304-417 | So every known section gets stored, one after the other, each with its canonical head, and earlier heads stay |
| ChainIndexer.QueryDrops | core/chain_indexer.go:434-440 | A query drops the last sections, down to one whose head is canonical, and nothing else |
| ChainIndexer.StartsOver | core/chain_indexer.go:358-395 | If the backend cannot be reset for a section, all sections are forgotten and have to be found again |
| ChainIndexer.ChainIndexer.Handle | core/chain_indexer.go:243-429 | Each event changes stored and known sections, their heads, the cascaded head and the section in progress exactly as a pure specification says, and one that cannot happen changes nothing |
| ChainIndexer.ChainIndexer.Run | core/chain_indexer.go:304-382 | Whatever the interleaving of notifications, steps, queries and arbitrary changes of the chain database, the state is the fold of the specification over the events, and each stored head is an ancestor of the next |
| Feed.Find | event/feed.go:213-220 | The first position of a channel, or -1 exactly if it is absent |
| Feed.Deactivated | event/feed.go:228-232 | Moves exactly one case from the active prefix to the served rest |
| Feed.Deleted | event/feed.go:223-225 | Shrinks exactly the part the case was in |
| Feed.Feed.Subscribe | event/feed.go:72-92 | Adds one wanted subscription to the inbox |
| Feed.Feed.StartRemove | event/feed.go:103-114 | Takes the subscription out of the inbox, or queues its removal if it has moved on |
| Feed.JoinedAndLeft | event/feed.go:72-114 | Subscribing and unsubscribing again before the next send leaves no trace |
| Feed.Feed.RemoveIdle | event/feed.go:119-122 | With the send lock held, takes exactly one case of the channel out |
| Feed.Feed.TryAll | event/feed.go:159-165 | Any set of ready receivers is moved from active to served, each once |
| Feed.Feed.TakeRemoval | event/feed.go:171-177 | A removal in the middle of a send shrinks the active prefix exactly if the removed case was active |
| Feed.Feed.Select | event/feed.go:169-181 | Either one waiting removal is carried out or one delivery is made and accounted for, the loop gets closer to its end, and only removals that were asked for are carried out |
| Feed.NobodyRemoved | event/feed.go:128-190 | If no removal waited and none was queued meanwhile, everybody present got the value |
| Feed.Feed.Interfere | event/feed.go:72-114 | However far subscribing and unsubscribing goroutines get between two steps of a send, the subscriptions wanted, those in the inbox and the removals queued are exactly what their calls say, and every removal was asked for |
| Feed.Feed.SendAll | event/feed.go:153-190 | The rounds of non-blocking sends and selects end with no active case, every delivery counted once and every removal carried out one that was asked for |
| Feed.Feed.Send | event/feed.go:128-190 | For every order of receivers, joins, leaves and removals, each subscription present at the start is delivered to exactly once or removed before its delivery; removed are only subscriptions whose removal waited or was queued meanwhile, each request once, so everybody wanted who did not ask to leave gets the value, and nobody else but those whose removal waited; the count is that of the deliveries; the case list keeps the initial subscriptions minus the removed ones; what is wanted, in the inbox and queued afterwards is what the calls made meanwhile say |
| Feed.Feed.Run | event/feed.go:72-190 | Over any sequence of subscriptions, unsubscriptions, sends and hand-overs of removals, the run keeps books that say exactly what is wanted, in the inbox, queued and waiting after each step, and every send is faithful to them |
| Feed.SubscribedCount | event/feed.go:72-114 | At every point of a run, a channel has as many wanted subscriptions as at the start, plus its joins, minus its leaves |
| Feed.DeliveredCount | event/feed.go:128-190 | Every value of a run is delivered to a channel as often as it had joined and not left when the value was sent, but for removals still waiting then and leaves asked for before the delivery ended |
| Feed.SubscriberServed | event/feed.go:67-92 | A channel that is never asked to leave gets every value sent after it joined, once per subscription, and none sent before |
| Feed.LeaverSpared | event/feed.go:103-122 | A channel that has left as often as it had joined, with no removal of it waiting, gets nothing any more |
| Feed.HandedOver | event/feed.go:103-122 | A leave that has been handed over waits no more |
| Protocols.SortCapsSorts | p2p/protocol.go:75-81 | Sorting is a permutation into ascending order of name and version |
| Protocols.NameLessIff | p2p/protocol.go:75-81 | Names are ordered by the first character in which they differ, and a proper prefix comes first |
| Protocols.FirstMatchFirst | p2p/peer.go:343-347 | The protocol matched is the first of the own ones with that name and version |
| Protocols.NextMatched | p2p/peer.go:346-353 | A match replaces the older version of its name in place, or goes after all ranges, and keeps the ranges adjacent |
| Protocols.MatchProtocols | p2p/peer.go:338-360 | Exactly the common protocols are picked, each at its highest common version, on adjacent ranges in the order of names from the end of the base protocol; stored offsets are those modulo 2^64, and exact if and only if the last one fits |
| Protocols.RangesDisjoint | p2p/peer.go:390-397 | No code belongs to two protocols |
| Protocols.RangesCover | p2p/peer.go:390-397 | Every code from the end of the base protocol to the end of the last range belongs to a protocol |
| Protocols.BothEndsAgree | p2p/peer.go:338-360 | Two nodes that advertise exactly their protocols, with equal lengths, arrive at the same protocols, versions and ranges |
| Protocols.GetProto | p2p/peer.go:390-397 | Finds a protocol whose range holds the code if there is one, in any map order |
| Protocols.MessageRoundTrip | p2p/peer.go:409-440 | A written code is in the range of its own protocol only, above the base protocol, and reads back as itself |
| Protocols.MessageDelivered | p2p/peer.go:338-440 | The same from one node to the other, from advertised capabilities to the code read |
| Protocols.OverflowingRange | p2p/peer.go:390-440 | A protocol whose range does not fit 64 bits receives none of its messages |
| Protocols.MessagesArriveIff | p2p/peer.go:390-440 | On one allocation: every code written is in the stored range of its own protocol and of no other if and only if all ranges together fit 64 bits |
| Protocols.DeliveredIff | p2p/peer.go:338-440 | The same from one node to the other, from advertised capabilities |
| Protocols.WrappedRangeOverlaps | p2p/peer.go:338-397 | Three ranges of which the first fits and yet shares a code with the third, which wrapped around |
| Gas.GasPool.AddGas | core/gaspool.go:29-35 | Adds to the pool; every caller is shown to stay within 64 bits, so the panic is unreachable |
| Gas.GasPool.SubGas | core/gaspool.go:39-45 | Takes the amount exactly if it is there |
| Gas.ToWordSize | core/state_transition.go:117-123 | The least number of 32-byte words that holds the size, for every 64-bit size |
| Gas.OverflowTest | core/state_transition.go:84-109 | The division test is true exactly when the multiplication would overflow |
| Gas.DataGas | core/state_transition.go:67-109 | The data part is the exact price, and fails exactly when that exceeds 64 bits |
| Gas.EmptyDataCost | core/state_transition.go:67-76 | Without data a call costs 21000 and, from Homestead on, a creation 53000 |
| Gas.NextByteCost | core/state_transition.go:77-109 | Every further byte costs 4 if it is zero, otherwise 16 from Istanbul on and 68 before, and for a creation from Shanghai on 2 more for every word begun |
| Gas.NextAccessCost | core/state_transition.go:110-113 | Every further address of an access list costs 2400 and each of its storage keys 1900 |
| Gas.IntrinsicGas | core/state_transition.go:67-114 | Fails exactly when the data part exceeds 64 bits; the result is the true cost modulo 2^64 |
| Gas.AccessListWraps | core/state_transition.go:110-113 | An access list of one address with which a plain call costs less than without |
| StateTransition.Affordable | core/state_transition.go:228-248 | Passing the worst-case funds check leaves enough for the price paid and the value transferred |
| StateTransition.MessageKeeps | core/state_transition.go:146-166 | A message has sender, recipient, nonce, value, gas, data, access list and caps of its transaction, and the lower of the fee cap and the tip plus the base fee as its price; there is none exactly if the sender cannot be recovered |
| StateTransition.NoncedIs | core/state_transition.go:368-376 | A call raises exactly the sender's nonce, by one |
| StateTransition.StateTransition.BuyGas | core/state_transition.go:228-248 | Succeeds exactly if the sender can pay the worst case and the block has the gas; failure changes nothing |
| StateTransition.StateTransition.PreCheck | core/state_transition.go:250-299 | Succeeds exactly under the rules on nonce, sender, fee caps, base fee, funds and block gas; reports a low nonce exactly if the account has moved past it; failure changes nothing |
| StateTransition.StateTransition.RefundGas | core/state_transition.go:407-422 | Refunds the counter capped at one part in the quotient and returns all remaining gas to sender and block |
| StateTransition.StateTransition.TransitionDb | core/state_transition.go:311-404 | Succeeds exactly on accepted messages, with the specified charge and final state; at least four fifths of the gas used, before London one half, is charged; the block loses exactly the gas charged; a failure costs the block at most the gas limit |
| StateTransition.FinalBalance | core/state_transition.go:385-422 | At the end the sender is paid for the gas not charged and the miner for the gas charged, and nobody else's balance is touched |
| StateTransition.PlainTransfer | core/state_transition.go:311-422 | A plain transfer end to end: 21000 gas are charged, the sender pays for them and the value, the recipient gets the value and the miner the tip, every other balance is the same, and exactly the sender's nonce rises |
| StateTransition.WeiConserved | core/state_transition.go:311-422 | The total of all balances changes by exactly what the EVM did minus the base fee of the gas charged, whoever sender, recipient and coinbase are |
| StateTransition.PriceSplits | core/state_transition.go:385-398 | The price paid is the miner's tip plus the base fee, and zero for exempt calls |
| StateTransition.ChargeFloor | core/state_transition.go:407-413 | Whatever the refund counter, all but one part in the quotient of the gas used is charged |
| StateTransition.ChargeShare | core/state_transition.go:378-413 | In figures: at least four fifths of the gas used from London on, and one half before |
| StateTransition.ChargeExact | core/state_transition.go:378-413 | A refund counter of up to one fifth, before London one half, of the gas used is refunded in full, and a larger one as far as that share goes, rounded down |
| BlockExecution.ApplyTransaction | core/state_processor.go:100-129 | Refines one step of the specification: applies exactly the acceptable transactions, with the specified receipt, gas and state, and reports a low nonce exactly on those whose sender has moved past them |
| BlockExecution.Process | core/state_processor.go:59-88 | Succeeds exactly if every transaction is acceptable in its place, and then reports the specification's receipts, gas and state |
| BlockExecution.ExecutionInBalance | core/state_processor.go:59-88 | Whatever a block runs, pool and gas used make up its limit, receipts add up, and the total of all balances changes by the EVM's doing minus the base fee of the gas used |
| BlockExecution.NothingCreated | core/state_processor.go:59-88 | With a conserving EVM, a block's execution leaves the sum of what the EVM did to the balances at zero |
| BlockExecution.BlockBurns | core/state_processor.go:59-88 | With a conserving EVM, the total of all balances after a block is that before it minus the base fee of the gas used |
| BlockExecution.ExecutedParts | core/state_processor.go:59-88 | Executing a block is executing a first part and then, from the state it leaves, the rest |
| BlockExecution.ReceiptsAnswer | core/state_processor.go:118-129 | Every transaction has a receipt in its place, with a positive charge unless its intrinsic gas wrapped to zero |
| BlockExecution.ReceiptTells | core/state_processor.go:118-129 | Every receipt tells the gas its transaction was charged and whether it failed, run in the state that the transactions before it left |
| BlockExecution.CumulativeIncreases | core/state_processor.go:118-129 | Where receipts add up and all are charged, cumulative gas is strictly increasing and ends at the gas used |
| BlockExecution.BlockCumulative | core/state_processor.go:59-88 | The same of the receipts of every executed block whose transactions have an intrinsic price |
| BlockExecution.NoReplay | core/state_transition.go:250-266 | With an EVM that never lowers a nonce and raises a creator's, the nonces of a sender's transactions in a block are strictly increasing, so none is replayed |
| BlockExecution.Environment.Accounts | miner/worker.go:867-942 | At every point of the assembly, pool and gas used make up the block's limit, every transaction has its receipt and the receipts add up |
| BlockExecution.MovesDraw | miner/worker.go:899-942 | Whatever is chosen, skipped, committed or dropped, each sender's committed transactions are a subsequence of its pending ones |
| BlockExecution.AdvanceIs | core/types/transaction.go:573-590 | A round changes only the sender's own list: the next transaction comes up unless the first one was unfit, it was the last, or the next does not pay |
| BlockExecution.NothingSkipped | miner/worker.go:899-942 | If no transaction is unfit and all pay, every round takes up exactly one, and each comes up once |
| BlockExecution.EverythingCommitted | miner/worker.go:899-942 | If moreover all are committed, the block gets everything that was pending |
| BlockExecution.FilledMore | miner/worker.go:899-942 | A round that is right for the state reached so far extends a right run, shrinks what is pending and adds exactly the transaction committed |
| BlockExecution.Environment.CommitTransaction | miner/worker.go:867-882 | Commits exactly an acceptable transaction; a failure leaves no trace in state, pool, transactions or receipts |
| BlockExecution.Environment.Try | miner/worker.go:914-942 | Commits exactly an applicable transaction that is not skipped and passes over exactly a stale one |
| BlockExecution.Environment.CommitTransactions | miner/worker.go:884-942 | Across successes, failures, roll-backs and interrupts the block stays one that anybody executes to the same receipts, gas and state; every transaction that came up was committed exactly if applicable in the state of the time, passed over exactly if stale and otherwise dropped with its sender; without an interrupt the loop ends only for lack of gas or with nothing pending; what is added is, for each sender, a subsequence of what was pending |
| BlockExecution.Environment.ProcessAssembled | core/state_processor.go:59-88 | A block assembled by the miner passes Process with exactly the miner's receipts, gas and state |
| ExpHeap.RootFirst | p2p/util.go:35-37 | No item of a heap expires before its root |
| ExpHeap.ExpHeap.Contains | p2p/util.go:45-52 | True exactly if an item with that key is in the heap |
| ExpHeap.ExpHeap.Add | p2p/util.go:40-42 | Adds exactly one item and keeps heap order |
| ExpHeap.ExpHeap.Pop | p2p/util.go:55-76 | Removes exactly one item, which expires no later than any other, and keeps heap order |
| ExpHeap.ExpHeap.Expire | p2p/util.go:55-62 | Removes exactly the items that expire before now |
| DialScheduler.BurstUses | p2p/dial.go:384-392 | Every static dial takes one slot and one node of the pool, and changes nothing else that was told |
| DialScheduler.BurstSize | p2p/dial.go:384-392 | The static dials of a round are as many as there are dialable static nodes, up to the slots left: twice the missing dialed peers, at most the active limit, less the dials under way |
| DialScheduler.DialWithinLimits | p2p/dial.go:350-392 | Every dial of a round finds both limits unreached, counting the dials before it, and is that of a node that is neither this one, connected, being dialed nor remembered, and that the event has named or that is static and reachable |
| DialScheduler.FullHouse | p2p/dial.go:350-357 | With all dialed peers connected a round makes no dial |
| DialScheduler.NoneOverlooked | p2p/dial.go:384-392 | A select leaves a reachable static node that may be dialed undialed only if a limit has been reached |
| DialScheduler.CandidateDialed | p2p/dial.go:217-235 | A candidate from discovery is dialed exactly if it is fresh and reachable and no limit has been reached |
| DialScheduler.RoundDialing | p2p/dial.go:217-293 | A node is being dialed after a round exactly if it was before or was dialed in it, and is not reported done |
| DialScheduler.RoundRecent | p2p/dial.go:341-347 | A node is remembered after a round exactly if it was before or was dialed in it, and the history timer has not fired after its expiry, 35 seconds after its last dial |
| DialScheduler.RunWithinLimits | p2p/dial.go:211-293 | Every dial of a whole run respects the limits as they stand after everything before it |
| DialScheduler.RoundsLearn | p2p/dial.go:229-293 | Whatever is dialed and when, peers, their count and the static nodes are what the events said |
| DialScheduler.LearnedAbout | p2p/dial.go:243-285 | Node by node: connected since the last report about it, static since it was added and not removed, with the dialed peers counted up and down |
| DialScheduler.DialScheduler.AddToStaticPool | p2p/dial.go:402-408 | Appends an entry that is not in the pool and records its place |
| DialScheduler.DialScheduler.RemoveFromStaticPool | p2p/dial.go:412-420 | Takes exactly one entry out by moving the last one into its place, and every index still points back |
| DialScheduler.DialScheduler.CheckDial | p2p/dial.go:361-381 | No objection exactly if the node is another one, reachable, and neither being dialed, connected nor recently dialed |
| DialScheduler.DialScheduler.UpdateStaticPool | p2p/dial.go:395-400 | Restores the invariant after a change that concerns one node, and changes nothing but the pool |
| DialScheduler.DialScheduler.Launch | p2p/dial.go:427-431 | Registers the dial and lets its goroutine go; every dial made is logged with its time |
| DialScheduler.DialScheduler.StartDial | p2p/dial.go:423-432 | Remembers the node and registers the dial; dials to one node stay more than the expiration time apart |
| DialScheduler.DialScheduler.StartStaticDials | p2p/dial.go:384-392 | Dials, one after the other and with time passing, static nodes that may be dialed while slots and pool last; what is known and logged afterwards is exactly those dials |
| DialScheduler.DialScheduler.ExpireHistory | p2p/dial.go:341-347 | Forgets exactly the expired nodes and puts dialable static ones back into the pool |
| DialScheduler.DialScheduler.OnAddPeer | p2p/dial.go:243-254 | Counts the peer and takes its node out of the pool |
| DialScheduler.DialScheduler.OnRemovePeer | p2p/dial.go:256-261 | Discounts the peer and puts its node back if it may be dialed |
| DialScheduler.DialScheduler.OnAddStatic | p2p/dial.go:263-274 | Registers a new static node, pooled exactly if it may be dialed; a known one changes nothing |
| DialScheduler.DialScheduler.OnRemoveStatic | p2p/dial.go:276-285 | Forgets the static node and takes it out of the pool |
| DialScheduler.DialScheduler.OnNode | p2p/dial.go:230-235 | A candidate from discovery is dialed exactly if nothing speaks against it |
| DialScheduler.DialScheduler.OnDone | p2p/dial.go:237-241 | Ends the dial and puts its node back if it may be dialed |
| DialScheduler.DialScheduler.Handle | p2p/dial.go:229-293 | Every event changes the scheduler's knowledge exactly as a specification without pool and heap says, and logs exactly the dial it leads to |
| DialScheduler.DialScheduler.Turn | p2p/dial.go:217-293 | One round: as many static dials as slots and pool allow, then exactly the meaning of the event received, with candidates taken only if slots are left; the log grows by exactly these dials |
| DialScheduler.DialScheduler.Loop | p2p/dial.go:211-293 | For any events and any monotone clock, also within a round: the loop is a run of such rounds, whose dials are exactly what the log gained and whose knowledge is exactly what the scheduler has; at every select the pool holds exactly the dialable static nodes, no node is dialed twice at once, running dials stay within the limit and dials to one node are more than the expiration time apart; peers, their count and the static nodes are exactly what the events said |
| DialScheduler.DialScheduler.Drain | p2p/dial.go:297-299 | Receiving once per dialing entry receives all outstanding completions |

## Left out

- The freezer, snap sync, the pivot block, the root threshold and the repair mode of `setHeadBeyondRoot`; the rewind is
  that of a full-synced node.
- The EVM, the state trie, receipts' logs and blooms, DAO fork, withdrawals and `Finalize`; the EVM is an arbitrary
  function that returns no more gas than it was given.
- Header and body verification, signatures and hashing: imported blocks are assumed numbered after their parents and
  equal to what is stored under the same hash.
- The second half of `insertSideChain` and `recoverAncestors`, which re-import blocks through the ordinary path.
- Events, logs, metrics, timers' arming, DNS and dialing itself.
- LRU eviction and the transaction lookup cache; caches in the model only grow.
- Failing database writes, which end the process, and crashes between two writes other than during a rewind.
- Checkpoints and child indexers of the chain indexer.
- The price order of pending transactions in the miner: any pending sender may come next, so the result covers every order.
- `event/feedof.go`, which repeats `event/feed.go` with type parameters.
- Ancestors.GetAncestor: the canonical hash is read once, because the second read only guards against a concurrent reorganisation.
- HeaderChain.HeaderChain.WriteHeadersAndSetHead: a missing difficulty cannot occur in the invariant, so that error path of the fork choice is absent.
- Block numbers are unbounded, without 64-bit wrap-around.
