# turbo-geth: a verified model of its stateful cores

turbo-geth keeps its chain in structures that are simple to describe and intricate to maintain: a key-value store that
remembers every past value, a transaction pool, a canonical chain that changes its mind, an event feed, an index that is
built while the chain moves, and the gas of a block. This project models those structures in Dafny 4.11 in the form the
source gives them (classes with fields that methods update, loops over cursors and arrays) and proves what they are for.
`dafny verify dfyconfig.toml` checks everything.

**The temporal store** (`ByteOrder`, `Encoding`, `KeyRange`, `Buckets`, `AsOfWalk`, `BucketWalk`, `Records`, `Mutations`,
`BatchStacks`, `SuffixIndex`, `IndexRuns`, `Unwind`). Buckets are maps from byte strings, and a cursor is a position in the
sorted keys. A history bucket holds `key ++ enc(t)` with the value that block t overwrote; the SUFFIX bucket lists, per
block and history bucket, the keys that changed. The main results: a walk "as of block t" visits exactly the keys that have
a value then, in order, each once and with that value; under any interleaving of operations a stack of write batches
answers like layered maps; after any run of recording, committing and deleting blocks, in any order, the index is exact;
and any run of block executions and unwinds leaves the database recording exactly the blocks that were not unwound.

**The transaction pool** (`TxLists`, `SortedMaps`, `Pricing`, `PoolTables`, `Fairness`, `PoolSteps`, `QueueLimits`,
`PoolOrder`, `PoolChanges`, `PoolRecords`, `PoolTraces`, `PoolFates`, `PoolHistories`, `TxPools`, `PoolResets`,
`AccountLists`, `PoolWitnesses`). The per-account lists with their nonce heap, cache and caps are proved equal to plain
sorted maps. `TxPool.Run` is the invariant over every run of operations: the lookup is the disjoint union of pending and
queued transactions, no account has a nonce twice, every pooled transaction is in the price heap, every pending
transaction can be paid for, and, as long as resets move forward, each account's pending transactions are the longest
gapless run of its pooled nonces that starts at its state nonce. A run leaves a log of steps, and each step says exactly
how the lookup changed; so every transaction that has left the pool left it for one of eight causes, and a local
account's transaction only for two of them: it was outbid, or it could not run in the state of that step. At every step
of a run from an empty pool the lookup is within the pool's capacity, or at most one of its transactions is remote;
every pooled transaction is local or meets the price limit; and exactly the accounts with pending transactions have a
heartbeat, which protects their queue from eviction. A reset that walks the chains reinjects exactly the transactions of
abandoned blocks that are in no adopted one. Truncation is characterised by its outcome: one common level for the lists
of all remote accounts, as high as the global limit allows.

**The chain** (`Ancestry`, `HeaderChains`, `Reorg`). The canonical number-to-hash map is always the ancestor map of the
current head, through header writes and reorganisations; the head has maximal total difficulty over any run of header
writes; the transaction lookup index follows the canonical chain.

**Feed, indexer and gas** (`Feeds`, `Indexer`, `Gas`, `Receipts`, `GasLimit`). Delivery to every subscriber exactly once
while the case slice is permuted in place, whatever the receivers do; section heads that stay linked although the update
loop works without the lock, and a section stored just if nothing took its ground away; gas and ether conserved across a
block, and paid to the right accounts; the gas limit as a controller that reaches its band.

`Options` and `Numbers` hold what several of these share.

## What the code does that its comments do not say

* Block numbers from 2^53 on do not survive the encoding, since the three tag bits of an eight-byte suffix overflow to
  zero (`Encoding.RoundTripExactly`).
* Recording a nil old value stores a tombstone and puts the index out of step (`SuffixIndex.PutSKeepsIndex`).
* core/tx_pool.go:1077 speaks of dropping the oldest queued transactions; the loop takes the accounts heard of last
  (`QueueLimits.LatestFirst`, in the contract of `TxPool.TruncateQueue`).
* BoltDatabase.DeleteTimestamp returns at a record that names a missing bucket and commits: the entries that earlier
  records list are gone, the records stay (`BoltDatabase.DeleteTimestamp`).
* A replacement that is refused in a full pool has already cost the pool the transactions discarded to make room, unless
  all of the pool is local (the contract of `TxPool.Add`; `PoolWitnesses.RefusedReplacement` is such a run).
* A reset that goes back and reinjects only some transactions can leave a gap among an account's pending nonces
  (`PoolWitnesses.GapAfterReset`). Demotion leaves none exactly if no nonce between the state nonce and a survivor is
  missing (`PoolChanges.DemotionTight`).
* The limits do not bound a pool of local transactions, since those are never discarded; beyond its capacity a pool holds
  at most one remote transaction (`PoolFates.StaysBounded`).
* A reset offers again a transaction that the old chain includes twice, below and above the fork, although the new chain
  still includes it; on a chain without repetition it offers exactly what the new chain lacks
  (`PoolResets.AbandonedLacking`).
* Only a promotion sets an account's heartbeat, so a remote account that has had nothing pending is evicted at the next
  eviction, however lately it sent its transactions (`PoolHistories.QueuedOnlyEvicted`).
* GetAncestor, asked about the empty hash at a number above the head, answers with a canonical hash; for every other hash
  an answer is the true ancestor (the contract of `HeaderChain.GetAncestor`).
* A reorganisation to an ancestor of the old head leaves the head header and the fast-sync head where they were (the
  contract of `BlockChain.Reorganize`).

## Model

| member | source | states |
|---|---|---|
| Encoding.EncodeTimestamp | ethdb/encoding.go:79-97 | the loop over byte counts, with its 64-bit limit wrapping, computes `Enc`, empty when no count fits |
| Encoding.FillSuffix | ethdb/encoding.go:86-91 | the array filled from its last byte holds the tag and five high bits, then the rest of the number big-endian |
| Encoding.DecodeTimestamp | ethdb/encoding.go:99-106 | the accumulating loop computes `Decode`, failing where the source would index past the end |
| Encoding.RoundTripExactly | ethdb/encoding.go:79-106 | decoding `enc(t) ++ rest` gives back t and rest if and only if t is below 2^53 |
| Encoding.EncOrder | ethdb/encoding.go:79-97 | byte order is numeric order, whatever is appended to the two encodings |
| Encoding.EncOrderIff | ethdb/encoding.go:79-97 | the order lemma in both directions |
| Encoding.EncPrefixFree | ethdb/encoding.go:79-97 | no encoding is a prefix of another, so a key ending in one splits in one way only |
| Encoding.EncBelowEnd | ethdb/walk.go:30 | every encoding sorts below the end suffix |
| KeyRange.FitsIsAgreement | ethdb/database.go:253-276 | the masked byte comparison of the walks holds exactly if the first fixedbits bits of the keys are equal |
| KeyRange.FitsConvex | ethdb/database.go:263-276 | the fitting keys from the start key on are an interval, so a walk may stop at the first key that does not fit |
| KeyRange.AgreeIsPrefix | ethdb/database.go:1002-1012 | with all bits of the start key fixed, the fitting keys are its extensions |
| Buckets.Seek | ethdb/database.go:263-276 | the cursor lands on the least key that is not below the target |
| Buckets.CompositeOrder | ethdb/database.go:91-97 | history keys of one key length are ordered by key and then by block |
| Buckets.SeekFindsNextChange | ethdb/database.go:218-237 | one seek in the history finds the first change of a key from block t on, or that there is none |
| Buckets.GetAsOfIsAsOf | ethdb/database.go:218-251 | GetAsOf answers the value stored by the next change, or the current value if there is none |
| AsOfWalk.WalkAsOf | ethdb/database.go:359-431 | the two-cursor merge terminates and visits, in strictly ascending order, exactly the keys in range that have a value as of t, each once and with that value, up to where the callback stops it |
| AsOfWalk.WalkUnique | ethdb/database.go:359-431 | the contract of the walk leaves no freedom: two walks with the same arguments make the same visits |
| AsOfWalk.HistoryJumps | ethdb/database.go:421-425 | seeking behind the end suffix of a visited key skips its other changes and nothing else |
| AsOfWalk.HistorySkips | ethdb/database.go:393-398 | skipping a change before t loses no later change of any key |
| BucketWalk.Walk | ethdb/database.go:263-285 | a plain walk visits exactly the fitting keys from the start key on, ascending, up to where the callback stops it |
| Records.BuildRecord | ethdb/database.go:1060-1084 | the buffer that Commit fills is the found record with its count raised and the new keys appended |
| Records.ReadKeys | ethdb/database.go:621-632 | the reading loop computes `ReadRecord`, failing where the source would index past the end |
| Records.RecordRead | ethdb/walk.go:43-72 | reading a record gives back the keys written, in order, if and only if their lengths and number fit their fields |
| Records.AppendIsConcat | ethdb/database.go:1060-1084 | appending to a record gives the record of the longer list |
| Mutations.BoltDatabase.MultiPut | ethdb/database.go:140-169 | writing run by run of equal bucket names has the effect of the tuples one by one, a nil value deleting |
| Mutations.BoltDatabase.DeleteTimestamp | ethdb/database.go:607-643 | the entries listed by the block's records go, record by record up to the first that names a missing bucket; the records themselves go just if there is none |
| Mutations.Mutation.constructor | ethdb/database.go:708-715 | a new batch shows what lies below it and holds no writes |
| Mutations.Mutation.Get | ethdb/database.go:717-774 | the layered lookup answers as the flat map of all layers with tombstones would |
| Mutations.Mutation.Put | ethdb/database.go:802-819 | one key of the flat map changes, nothing below does |
| Mutations.Mutation.Delete | ethdb/database.go:984-999 | the key leaves the flat map, nothing below changes |
| Mutations.Mutation.PutS | ethdb/database.go:822-845 | the value goes to `key ++ enc(t)` and the key is collected for the index of block t |
| Mutations.Mutation.MultiPut | ethdb/database.go:847-861 | the flat map changes as by the tuples one by one |
| Mutations.Mutation.DeleteTimestamp | ethdb/database.go:1002-1037 | exactly what the database's records list for the block is buried, with the records |
| Mutations.Mutation.WriteIndex | ethdb/database.go:1047-1087 | in any order of blocks and buckets, every collected key list is appended to its record and nothing else changes, if those records have a counter to read |
| Mutations.Mutation.Commit | ethdb/database.go:1039-1113 | the parent comes to hold the batch's view with the index written, the batch is empty, and no Get answer outside the SUFFIX bucket changes |
| Mutations.Mutation.Rollback | ethdb/database.go:1115-1120 | the batch shows the parent's view again, which is unchanged |
| BatchStacks.GetIsLayered | ethdb/database.go:717-774 | Get finds the value of the topmost layer that mentions the key |
| BatchStacks.Run | ethdb/database.go:701-1120 | after any interleaving of writes, recordings, commits and rollbacks on any batches of a stack, and of new batches on top, every answer outside the SUFFIX bucket is that of layered maps with tombstones |
| BatchStacks.CommitTop | ethdb/database.go:1039-1113 | a commit moves a layer into the one below, or into the database |
| SuffixIndex.PutSKeepsIndex | ethdb/database.go:822-845 | recording a change keeps the index exact if and only if it has a value |
| SuffixIndex.CommitKeepsIndex | ethdb/database.go:1047-1087 | committing moves what was pending into the records: each decodes to exactly the keys k with an entry `k ++ enc(t)` |
| SuffixIndex.DeleteIsWithoutBlock | ethdb/database.go:1002-1037 | DeleteTimestamp(t) erases all entries and records of block t and nothing of another block |
| SuffixIndex.DeleteKeepsIndex | ethdb/database.go:607-643 | without a block the index is still exact |
| SuffixIndex.DeleteExactly | ethdb/database.go:1002-1037 | DeleteTimestamp erases the whole block and keeps the index exact if and only if nothing recorded for the block waits for a commit |
| Unwind.AsOfRestores | ethdb/walk.go:84-96 | GetAsOf just after dst answers the value that a changed key had after block dst |
| Unwind.CollectCells | ethdb/walk.go:34-78 | the walk over the SUFFIX records collects exactly the keys changed in (dst, src] |
| Unwind.RewindData | ethdb/walk.go:34-99 | the callback is called at most once per key, only for keys changed in (dst, src] and with their value after dst, and for all of them unless it fails |
| Unwind.ApplyUndos | core/state/database.go:698-776 | applying those calls gives every key its value after dst and leaves the history alone |
| IndexRuns.DropBlock | core/state/database.go:777-781 | deleting a block from a batch over committed data removes that block wholly and alone |
| IndexRuns.Perform | ethdb/database.go:822-1113 | one more recording, commit or deletion keeps database and batch in step with what was asked for |
| IndexRuns.Run | ethdb/database.go:822-1113 | after any run of recordings, commits and deletions of committed blocks, of any blocks in any order and with repeated keys, the index is exact in the database and, with what is pending, in the batch, and the entries are those recorded and not deleted |
| Unwind.UnwindTo | core/state/database.go:690-785 | the state of dst is restored and the blocks after it are forgotten |
| Unwind.WriteChange | core/state/database.go:1355-1384 | writing a key's new value and recording its old one advances the block by that key |
| Unwind.ExecuteBlock | core/state/database.go:1355-1485 | a block that records old values before overwriting them, once committed, extends the recorded run by its state |
| Unwind.Run | core/state/database.go:690-785 | any run of blocks and unwinds leaves the database recording exactly the blocks not unwound, with an exact index |
| SortedMaps.TxSortedMap.Put | core/tx_list.go:73-79 | heap and map gain the nonce once, the cache is dropped |
| SortedMaps.TxSortedMap.Forward | core/tx_list.go:84-98 | removes exactly the nonces below the threshold, in order, and the cache keeps listing the rest |
| SortedMaps.TxSortedMap.Filter | core/tx_list.go:102-123 | removes exactly the matching transactions and rebuilds the heap |
| SortedMaps.TxSortedMap.Cap | core/tx_list.go:127-148 | keeps the lowest nonces up to the threshold, the cache included |
| SortedMaps.TxSortedMap.Remove | core/tx_list.go:152-169 | removes one nonce from map and heap, and says whether it was there |
| SortedMaps.TxSortedMap.Ready | core/tx_list.go:178-193 | takes the run from the lowest nonce, in order, if that is not above start |
| SortedMaps.TxSortedMap.Flatten | core/tx_list.go:203-216 | returns the contents in nonce order, from the cache or not |
| SortedMaps.ReadyIsMaximalRun | core/tx_list.go:178-193 | from its start nonce on, what Ready takes is the longest unbroken run |
| SortedMaps.TxList.Add | core/tx_list.go:251-272 | inserts into a free slot or over a transaction it outbids by the price bump, and the caps still bound every transaction |
| SortedMaps.TxList.Filter | core/tx_list.go:290-314 | drops what is too dear and, if strict, everything after the first drop; the caps tighten to the limits |
| SortedMaps.ShortCircuit | core/tx_list.go:290-297 | when both caps lie within the limits, filtering would remove nothing |
| SortedMaps.TxList.Remove | core/tx_list.go:325-336 | removes a nonce and, if strict, returns everything above it as invalid |
| SortedMaps.StrictStaysContiguous | core/tx_list.go:277-336 | a contiguous strict list stays contiguous through removal, filtering and forwarding |
| TxLists.SortedUnique | core/tx_list.go:203-216 | the nonce-sorted listing of a map is one particular sequence |
| TxLists.CapToIsLowest | core/tx_list.go:127-148 | capping keeps the right number of transactions, and no kept nonce lies above a dropped one |
| Pricing.TxPricedList.Removed | core/tx_list.go:421-436 | re-heaping from the lookup or not, whatever was covered by the heap still is |
| Pricing.TxPricedList.Cap | core/tx_list.go:440-467 | despite stale and duplicate entries returns exactly the remote transactions below the threshold and keeps the rest covered |
| Pricing.TxPricedList.Underpriced | core/tx_list.go:471-493 | says whether a remote transaction is no dearer than every pooled one |
| Pricing.TxPricedList.Discard | core/tx_list.go:497-520 | returns only remote transactions, none dearer than a remote one it leaves, as many entries as asked for or all there are |
| PoolTables.TakeQueued | core/tx_pool.go:958-1001 | what leaves a queued list is in flight: known, with a slot that is free in both tables |
| PoolTables.LandPending | core/tx_pool.go:760-793 | a transaction in flight lands in a free pending slot, so promotion replaces nothing |
| PoolTables.TakeOnePending | core/tx_pool.go:902-930 | removing a pending transaction puts exactly the transactions behind it in flight |
| PoolTables.WhereHeld | core/tx_pool.go:916-941 | the slot that removeTx looks at holds the very transaction to be removed |
| Fairness.FairMeans | core/tx_pool.go:1006-1076 | after truncation the total fits or remote accounts have at most their guaranteed slots; cut accounts have one common length, no less than the guarantee and no remote account more; local accounts are untouched |
| Fairness.Count | core/tx_pool.go:1006-1009 | adding up the list lengths, in any order, gives the total |
| PoolSteps.PromoteTight | core/tx_pool.go:978-985 | a promoted run starts exactly at the pending nonce, so the pending nonces grow without a gap |
| PoolOrder.OrderOnLoss | core/tx_pool.go:902-941 | taking transactions away leaves no gap and nothing that could run in the queue, if pending nonces follow what was taken |
| PoolOrder.PromoteOrder | core/tx_pool.go:978-985 | promotion leaves nothing queued that could run next, and promotes only what can be paid for |
| PoolOrder.PendingIsMaximal | core/tx_pool.go:946-1001 | an account's pending transactions are the longest run of its pooled nonces from its state nonce on |
| PoolSteps.DroppedTogether | core/tx_pool.go:958-1001 | the drops of the single steps are, together, what is neither promoted nor kept |
| PoolSteps.NextOffender | core/tx_pool.go:1022-1034 | the next account popped is uncut and the earlier offenders stand at one common length |
| PoolSteps.LeveledAfter | core/tx_pool.go:1035-1052 | a round over the offenders lowers their common length by one and keeps the running total true |
| QueueLimits.SortByHeartbeat | core/tx_pool.go:1083-1090 | sorting the accounts by heartbeat |
| QueueLimits.CuttingStep | core/tx_pool.go:1093-1115 | each turn removes the account heard of last, or cuts it in part with nothing left to drop |
| PoolChanges.StaysRunnable | core/tx_pool.go:1125-1155 | what stays pending can be paid for and starts at the state nonce |
| PoolChanges.StaysGapless | core/tx_pool.go:1125-1155 | demotion leaves an account's list without a gap from the state nonce on if and only if no nonce between it and a payable survivor is missing, or the state nonce itself does not survive |
| PoolChanges.DemotionTight | core/tx_pool.go:443-456 | demotion and the nonce update leave every account gapless up to its pending nonce if and only if each list has no hole and an emptied account's pending nonce is its state nonce |
| PoolChanges.ForwardInLine | core/tx_pool.go:443-456 | moving to a state with no lower nonce meets that condition |
| PoolFates.Fate | core/tx_pool.go:643-1162 | a transaction that leaves in a step was outbid, discarded as no dearer than the remote ones that stayed, cannot run in the state of the step, was over its account's queue, over the pending slots or over the queue limit, fell below the price limit, or expired; each with what the step kept instead |
| PoolFates.LocalStays | core/tx_pool.go:637-643 | in any run a local account's transaction leaves only by being outbid or because it cannot run in the state of the step |
| PoolFates.LookupCounts | core/tx_pool.go:643-671 | the lookup is as large as the pending and queued lists together |
| PoolFates.WithinLimits | core/tx_pool.go:946-1117 | a pool within its limits gives nothing up for price or room |
| PoolFates.DiscardsEnough | core/tx_pool.go:656-671 | in a full pool within the bound, what is discarded is as many transactions as are over the limit or all remote ones, so that afterwards there is room or nothing remote is left |
| PoolFates.StepBounded | core/tx_pool.go:643-714 | every step keeps the bound: the lookup is within the pool's capacity, or at most one of its transactions is remote |
| PoolFates.StaysBounded | core/tx_pool.go:643-714 | a run that starts within the bound is within it at every step |
| PoolWitnesses.RefusedReplacement | core/tx_pool.go:656-680 | a run in which a refused replacement costs another account its transaction |
| PoolWitnesses.GapAfterReset | core/tx_pool.go:377-460 | a reset to an earlier state that reinjects nonce 3 beside a pending nonce 5 leaves both pending and 4 missing |
| AccountLists.PromoteList | core/tx_pool.go:958-1001 | the operations on an account's queued list object give the run and the rest that the pool's tables have, and drop what is in neither |
| AccountLists.DemoteList | core/tx_pool.go:1124-1161 | the operations on an account's pending list object leave what the pool's tables say stays, drop the useless and hand back the rest |
| PoolChanges.Enqueued | core/tx_pool.go:719-742 | a newcomer that is not pending enters the queue in a free slot or in place of one it outbids |
| PoolChanges.Outpriced | core/tx_pool.go:674-697 | a newcomer for a pending slot takes it by outbidding its holder, which leaves the lookup |
| TxPools.TxPool.constructor | core/tx_pool.go:238-282 | an empty pool satisfies the invariants, the bound, and what PoolHistories.StaysSound keeps |
| TxPools.TxPool.EnqueueTx | core/tx_pool.go:719-742 | the queue, the lookup and the heap after queuing one transaction, and when it is refused |
| TxPools.TxPool.PromoteTx | core/tx_pool.go:760-793 | the pending list, the lookup, the heap and the pending nonce after promoting one transaction |
| TxPools.TxPool.RemoveTx | core/tx_pool.go:902-941 | exactly one transaction leaves the lookup, those behind it return to the queue, and order is kept: no gap, nothing left queued that could run, nothing pending that cannot |
| TxPools.TxPool.DropUnable | core/tx_pool.go:963-977 | a queue loses exactly its spent nonces and unpayable transactions |
| TxPools.TxPool.PromoteAccount | core/tx_pool.go:958-1001 | an account's queue loses what is old, dear or too much, its runnable run moves to pending, and nothing is lost or duplicated |
| TxPools.TxPool.CutRound | core/tx_pool.go:1036-1051 | one round lowers the common length of the offenders by one and the counter by their number |
| TxPools.TxPool.EqualizeTo | core/tx_pool.go:1035-1073 | rounds until the total fits or the threshold is reached, no lower than needed |
| TxPools.TxPool.TruncatePending | core/tx_pool.go:1006-1076 | the outcome is fair: the highest common level at which the total fits, or the guaranteed slots |
| TxPools.TxPool.RemoveQueue | core/tx_pool.go:1100-1106 | an account's queue is emptied, and nothing else changes |
| TxPools.TxPool.RemoveLast | core/tx_pool.go:1108-1114 | the given number of highest nonces goes |
| TxPools.TxPool.TruncateQueue | core/tx_pool.go:1077-1116 | the queue fits or only local accounts stay queued, no more goes than needed, lowest nonces stay, and accounts heard of last go first |
| TxPools.TxPool.PromoteExecutables | core/tx_pool.go:946-1117 | exactly the given accounts are promoted, then pending lists and queue are truncated as above, and nothing else leaves the lookup; exactly the accounts that promote a run are heard of now and have their pending nonce behind it, and a cut list's account has it at the cut |
| TxPools.TxPool.DemoteAccount | core/tx_pool.go:1124-1161 | one account keeps what can still run, loses what cannot in the new state, and queues the rest |
| TxPools.TxPool.DemoteUnexecutables | core/tx_pool.go:1122-1162 | the lookup loses exactly the pending transactions with a spent nonce or an unpayable cost, and an account with nothing left pending its heartbeat |
| TxPools.TxPool.MakeRoom | core/tx_pool.go:656-671 | a full pool refuses a remote transaction no dearer than all others, and otherwise drops some of its cheapest remote transactions if it has any, no more than are over the limit, with their accounts' pending lists cut before the first of them, pending nonces lowered to it and heartbeats gone with the last pending transaction; any other pool stays as it is |
| TxPools.TxPool.Insert | core/tx_pool.go:672-713 | a transaction takes a pending slot by outbidding, or goes to the queue, or changes nothing; the tables afterwards |
| TxPools.TxPool.Add | core/tx_pool.go:643-714 | which answer each transaction gets, exactly what enters and leaves the lookup and the tables, when its account becomes local, and exactly when a refused replacement has cost the pool something; a pool within capacity, or with at most one remote transaction, stays so |
| TxPools.TxPool.AddTx | core/tx_pool.go:824-839 | adding one transaction, with promotion, keeps the invariants and leaves nothing queued that could run; whatever left the lookup left for a cause, and a pool within its limits keeps the newcomer and all it does not outbid or that can still run |
| TxPools.TxPool.AddTxs | core/tx_pool.go:851-872 | the answer to each transaction of a batch, added one after the other, with one promotion of the accounts that got something new; whatever left the lookup left for a cause |
| TxPools.TxPool.SetGasPrice | core/tx_pool.go:493-502 | afterwards no remote transaction is below the threshold, and no other transaction has gone |
| TxPools.TxPool.Evict | core/tx_pool.go:337-351 | exactly the remote accounts not heard of for the lifetime lose their queue |
| TxPools.TxPool.Refresh | core/tx_pool.go:443-456 | after demotion every pending transaction can run in the new state, exactly the useless ones are gone, and no gap is left if and only if every account was in line |
| TxPools.TxPool.Reset | core/tx_pool.go:377-460 | the new state, the additions, the demotion and the promotion of a reset in turn, with a cause for all that left; every pending transaction can run, and pending lists are gapless and maximal if all accounts are in line at the demotion, as they are after a reset that goes forward without reinjection |
| TxPools.TxPool.Run | core/tx_pool.go:287-460 | in every run of operations the lookup, the tables and the price heap stay in step and pending transactions can run; pending lists stay gapless and maximal as long as resets go forward; every transaction that left did so at a step of the run and for a cause, a local one only outbid or useless; a pool within the bound is so at every step, and so is one in which every transaction is vetted and meets the price limit or is local |
| PoolRecords.FallsTwice | core/tx_pool.go:916-941 | cutting a list twice leaves the pending nonce where one cut at the lower nonce would |
| PoolRecords.RemovalPending | core/tx_pool.go:902-941 | removing a set of transactions, in any order, cuts each account's pending list before its first removed nonce and lowers its pending nonce to that |
| PoolRecords.OneMorePromoted | core/tx_pool.go:787-791 | promoting accounts one after the other gives each the pending nonce behind its run and the heartbeat of now |
| PoolHistories.StepBeats | core/tx_pool.go:789-1159 | every step sets the heartbeat of exactly the accounts that promote something and deletes that of exactly the accounts whose last pending transaction goes |
| PoolHistories.StepMatched | core/tx_pool.go:789-1159 | so exactly the accounts with pending transactions have a heartbeat |
| PoolHistories.HeartbeatProtects | core/tx_pool.go:337-351 | in any run an account that promoted something loses nothing to an eviction within the lifetime, as long as it has had pending transactions since and the clock has not gone back |
| PoolHistories.QueuedOnlyEvicted | core/tx_pool.go:337-351 | a remote account with nothing pending loses its whole queue to any eviction after the lifetime, however lately its transactions came |
| PoolHistories.AcceptedIff | core/tx_pool.go:592-637 | validation lets through exactly what meets all its conditions |
| PoolHistories.StepPriced | core/tx_pool.go:493-714 | every step keeps every pooled transaction local or at the price limit or above it: a newcomer was validated or outbids one that was, and a new limit removes the rest |
| PoolHistories.StaysSound | core/tx_pool.go:287-714 | at every step of a run every pooled transaction is vetted, and local or not below the price limit, and exactly the accounts with pending transactions have a heartbeat |
| PoolResets.Descend | core/tx_pool.go:397-410 | the transactions of the blocks passed on the way down, in order, or a body is missing on the way |
| PoolResets.Meet | core/tx_pool.go:411-422 | both chains are walked to their highest common block, unless a body is missing from there on |
| PoolResets.Reinject | core/tx_pool.go:377-426 | which resets walk the chains, that the walk fails just if one of them lacks a body from the fork on, and that it yields the abandoned transactions without the adopted ones, in the order of the walk |
| PoolResets.AbandonedAre | core/tx_pool.go:397-424 | a transaction is reinjected if and only if it is in a block of the old chain above the fork and in none of the new |
| PoolResets.AbandonedLacking | core/tx_pool.go:378-426 | reinjected are exactly the transactions of the old chain that the new chain lacks, if and only if none of them is also below the fork and not adopted again |
| PoolResets.AbandonedOfUnrepeated | core/tx_pool.go:378-426 | so it is if the old chain repeats no transaction |
| PoolResets.ResetTo | core/tx_pool.go:377-460 | a reset takes place unless the walk fails or the state is missing, when the pool is unchanged; otherwise it runs with the reinjected transactions, every pending transaction can run afterwards, and a forward reset without reinjection leaves pending lists gapless and maximal |
| Ancestry.PathAt | core/headerchain.go:310-329 | each entry of a header's path is stored under its number and has the entries below as its own path |
| Ancestry.Rerouted | core/headerchain.go:173-187 | a map that follows one chain below a common block and another above it is the other chain's map |
| HeaderChains.TdIsSum | core/headerchain.go:141-154 | the recorded total difficulty is the sum of the difficulties from the genesis on |
| HeaderChains.HeaderChain.constructor | core/headerchain.go:74-110 | a chain of the genesis alone satisfies the invariants |
| HeaderChains.HeaderChain.WriteHeader | core/headerchain.go:135-202 | the canonical map stays the ancestor map of the current header, totals add up, the heaviest head stays heaviest, and when the head changes |
| HeaderChains.HeaderChain.DeleteAbove | core/headerchain.go:160-171 | deletes exactly the canonical entries above a number |
| HeaderChains.HeaderChain.Reroute | core/headerchain.go:160-191 | the deleting and overwriting loops turn the old head's map into the new header's |
| HeaderChains.HeaderChain.InsertHeaderChain | core/headerchain.go:270-306 | over any run of header writes the invariants and maximal total difficulty hold, and where the run stops |
| HeaderChains.HeaderChain.GetAncestor | core/headerchain.go:336-366 | the answer, its number and the budget left, exactly: the hash that following parents reaches, if the headers to check one by one, those before the canonical chain or before the ancestor, are within the budget, and otherwise none; a canonical hash needs no budget |
| HeaderChains.DistanceIsLeast | core/headerchain.go:347-363 | the headers checked one by one are those before the first that is on the canonical chain |
| HeaderChains.CanonicalAncestor | core/headerchain.go:347-351 | on the canonical chain following parents reaches the entry that many numbers below |
| Reorg.TxDifference | core/types/transaction.go:278-293 | keeps, in order, what is in the first list and not in the second |
| Reorg.WriteTxLookupEntries | core/rawdb/accessors_indexes.go:43-58 | each transaction of the block gets its place, other entries stay |
| Reorg.BlockChain.Reduce | core/blockchain.go:1422-1442 | the blocks passed on the way down and their transactions; it fails just if a body on the way is missing |
| Reorg.BlockChain.FindCommon | core/blockchain.go:1444-1462 | the chains meet at the highest common block, or a body is missing on one of them from there on |
| Reorg.BlockChain.InsertNew | core/blockchain.go:1479-1487 | inserting the new blocks upwards completes the canonical map and writes their transactions' places |
| Reorg.BlockChain.Reorganize | core/blockchain.go:1393-1494 | the canonical map becomes the ancestor map of the new head, also when that is lower or an ancestor; an exact lookup index stays exact if and only if the new chain repeats no transaction; it fails just if one of the chains lacks a body from their highest common block on, and then nothing changes |
| Reorg.Reindexed | core/blockchain.go:1480-1494 | writing the new places and deleting only the difference makes the index the new chain's |
| Feeds.Feed.Find | event/feed.go:213-220 | the index of a channel's case, or that it has none |
| Feeds.Feed.Delete | event/feed.go:223-225 | the slice without one element, the rest in order |
| Feeds.Feed.Deactivate | event/feed.go:228-232 | the chosen case and the last active one change places |
| Feeds.Feed.Remove | event/feed.go:104-125 | an idle feed forgets exactly that channel |
| Feeds.Feed.TryAll | event/feed.go:156-165 | each active case is tried once: exactly the waiting channels that are ready receive the value and leave the active cases |
| Feeds.Feed.Select | event/feed.go:169-181 | an unsubscription forgets its channel, a delivery gives one waiting channel the value, and the active cases stay the waiting ones |
| Feeds.Feed.Send | event/feed.go:129-190 | whatever the receivers do, round by round: exactly the channels subscribed at the start that take the value before they leave receive it, once; the result counts them; the send ends just when every channel has taken the value or left; only who left is forgotten |
| Feeds.PlayMeans | event/feed.go:149-181 | of the rounds of a send: who gets the value, who is still waited for, and who is forgotten |
| Feeds.Delivered | event/feed.go:228-232 | a delivery moves a case out of the undelivered prefix |
| Feeds.Removed | event/feed.go:171-177 | a removal shrinks the undelivered prefix just if the case was still in it |
| Indexer.ChainIndexer.SetValidSections | core/chain_indexer.go:459-471 | the heads from the given section on are gone, those below are kept |
| Indexer.ChainIndexer.AddCheckpoint | core/chain_indexer.go:132-144 | the checkpoint's head is stored only above the stored sections, and no other head is put on record as given |
| Indexer.ChainIndexer.HandleHead | core/chain_indexer.go:244-301 | a reorg takes sections back, not below the checkpoint, and known sections and cascaded head with them; a new head makes known only sections with all their confirmations, and only if the checkpoint matches |
| Indexer.ChainIndexer.ProcessSection | core/chain_indexer.go:387-418 | succeeds just if the backend does and the blocks read form one chain from the given head |
| Indexer.ChainIndexer.Update | core/chain_indexer.go:318-379 | whatever events arrive while it works, the section is stored if and only if it was read as one chain, the backend took it and the head that it was grown from is in place after all of them; all sections and heads in both cases, with the events' own effects; heads stay linked or given by a checkpoint |
| Indexer.ChainIndexer.Others | core/chain_indexer.go:132-301 | the other goroutines' events have their effects one after the other |
| Indexer.ChainIndexer.Finish | core/chain_indexer.go:350-370 | the end of a turn stores the section or gives it up |
| Indexer.UndisturbedTurn | core/chain_indexer.go:318-370 | new heads, checkpoints and reorgs above a section do not keep it from being stored |
| Indexer.StaysInPlace | core/chain_indexer.go:244-301 | events without a reorg below a section leave the heads before it in place |
| Indexer.ChainIndexer.Run | core/chain_indexer.go:244-379 | in every interleaving of turns, head notifications and checkpoints each section head is a section of links above the one before, or was announced by one of the checkpoints; each state follows from the one before by its step |
| Indexer.ChainIsLinked | core/chain_indexer.go:397-412 | a section that was read is exactly sectionSize parent links long |
| Indexer.SectionGrown | core/chain_indexer.go:350-353 | if the head it was grown from is in place, the new section head is linked to it |
| Gas.IntrinsicGas | core/state_transition.go:80-110 | the base and per-byte price of the data, failing just if it exceeds 64 bits |
| Gas.StateTransition.BuyGas | core/state_transition.go:153-166 | the sender pays for all the gas and no other account anything, and the pool gives it, or nothing changes, and which error says so |
| Gas.StateTransition.PreCheck | core/state_transition.go:168-181 | succeeds just if nonce, balance and pool allow it, and tells a high nonce from a low one |
| Gas.StateTransition.RefundGas | core/state_transition.go:233-248 | the refund is the counter or half the gas used, and the price of what is left goes to the sender and to nobody else, the gas to the pool |
| Gas.StateTransition.TransitionDb | core/state_transition.go:186-231 | the pool loses just the gas used; account by account, the sender gets the gas price of the gas left, the coinbase that of the gas used, and nobody else anything besides the EVM's step; the nonces are the EVM's, which starts with the sender's one higher for a call; the total balance is conserved; which error there is otherwise, and that one behind the purchase leaves the gas bought and paid for |
| Gas.Payments | core/state_transition.go:153-248 | the balances and nonces of every account before and after the EVM's step, written out |
| Gas.RefundIsHalf | core/state_transition.go:233-253 | the gas used is at least half of what was spent before the refund |
| Gas.Process | core/state_processor.go:113-149 | after each transaction pool gas and gas used add up to the block's limit, so AddGas never overflows; receipts accumulate the gas, each state comes from the one before by its transaction, and ether is conserved; an error is that of the first transaction that fails |
| Gas.UsedIsDifference | core/state_processor.go:173-179 | a receipt's gas used is the difference of two cumulative values |
| Receipts.SetReceiptsData | core/blockchain.go:767-802 | the derived fields of every receipt and log, in place, or nothing if the numbers differ |
| Receipts.GasRecovered | core/blockchain.go:785-790 | of receipts that processing a block made, the gas used comes back as it was |
| Receipts.LogsNumbered | core/blockchain.go:791-799 | the logs of the block are numbered consecutively from zero across its receipts |
| GasLimit.NoWrap | core/block_validator.go:167-198 | from a parent limit of 5120 on, nothing wraps and the minimum does not bite |
| GasLimit.MovesLittle | core/block_validator.go:167-198 | the limit moves by strictly less than a 1024th of the parent's limit |
| GasLimit.Steers | core/block_validator.go:167-198 | the band is closed, and a limit outside comes nearer by at least four without passing it |
| GasLimit.Approaches | core/block_validator.go:167-198 | over any run of blocks the distance to the band falls by four a block until it is zero |
| GasLimit.ReachesBand | core/block_validator.go:167-198 | whatever the blocks use, every run is in the band after a quarter of its distance |

## Left out

- bolt, LLRB trees, container/heap, sort, prque and the LRU caches: they appear through their contracts (sorted map, least element, sorted permutation, greatest priority, a cache that answers what was stored).
- MultiWalk and MultiWalkAsOf: batched forms of the walks with debugging code.
- encode8to7 and decode7to8: nothing modelled here calls them.
- BoltDatabase.PutS: it leaves the bucket name out of the suffix key (ethdb/database.go:107-138); index claims are about the batch's PutS and Commit.
- mutation.Has: it answers true for a tombstone (ethdb/database.go:776-793); the flat-map view is stated for Get.
- mutation.Keys, MemCopy, Size and BatchSize: no claims.
- BatchStacks.Run: values written to the SUFFIX bucket by hand have at least the four bytes of a counter, without which Commit would read past their end.
- Mutations.Mutation.Put: a batch's writes are one map from bucket and key to an optional value instead of a tree per bucket.
- AsOfWalk.WalkAsOf: keys of one length and block numbers below 2^53, as the writer produces them.
- IndexRuns.Run: a block is deleted only while nothing recorded for it waits for a commit, without which DeleteExactly shows the claim false; old values are not nil, without which PutSKeepsIndex does.
- Mutations.BoltDatabase.DeleteTimestamp: records that name the SUFFIX bucket itself, which the loop would change while it reads it.
- SuffixIndex.CommitKeepsIndex: a record holds fewer than 2^32 keys and keys are shorter than 256 bytes, the widths of their fields.
- Unwind.UnwindTo: the account trie and its in-memory caches, which the source unwinds with the same callback.
- A pool transaction stands for its hash, so sender and nonce are fixed by it; its value is not negative by type.
- Nonces, gas and prices in the pool are unbounded integers.
- PoolResets.ResetTo: what the state database and the transaction decoder answer for the new head are parameters; the new head is given.
- The pool's journal, metrics, events, and the queries Status, Content, Pending and Stats.
- HeaderChains.HeaderChain.WriteHeader: header validation (number after the parent's, one header per hash) is a precondition; SetHead is not modelled.
- Reorg.BlockChain.Reorganize: logs and chain events of the reorganisation; blocks are headers with a list of transaction hashes.
- insertChain, state roots and block import as a whole.
- Feeds.Feed.Subscribe: a channel is subscribed once at a time.
- Feeds.Feed.Send: the receivers are a list of rounds, and a send that they leave waiting is not finished; subscriptions that arrive during a send wait in the inbox, which the send no longer touches; type checks and the closed flag are left out.
- Indexer.ChainIndexer.HandleHead: the cascade to child indexers is kept only as the cascaded head; sections are unbounded integers.
- Gas.StateTransition.TransitionDb: the EVM is any function that returns at most the gas it was given and conserves the total balance.
- Gas.Process: engine rewards, state roots and the DAO fork.
- Locks, goroutines, tickers and channels: each locked region is one step, and races are interleavings of such steps.
- RPC, networking, consensus engines, wallets, console and configuration.
