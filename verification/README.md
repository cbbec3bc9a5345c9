# A verified model of the Eunomia key/value store

Eunomia is a transactional in-memory key/value store built on hardware
transactional memory, over the code base of LevelDB. This project models its
hardest parts in Dafny and proves what they are for, over every input and every
interleaving.

- **The DBX transaction protocol** (`Dbx*.dfy`). Optimistic read-write
  transactions that validate sequence numbers inside one hardware transaction,
  read-only transactions on a snapshot counter with chains of old versions,
  reclamation after an RCU grace period, and delayed physical removal, all in
  one machine whose steps are the atomic pieces of the code. Main results:
  serializability, snapshot reads, reclamation safety, conservation of buffers,
  removal at most once and exactly when due, and progress.
  The commit code itself (`DbxCommitCode`) is imperative and proved to take one
  machine state to the next.
- **The secondary-index B+ tree** (`BTree*.dfy`), its insertion code on an
  explicit memory of nodes, and its iterator under arbitrary insertions between
  calls.
- **The skip list with fine-grained locks** (`SkipList*.dfy`), as a machine of
  single memory accesses: order, nesting, one node per key, no deadlock.
- **The log** (`Log*.dfy`): fragmented records in 32 KB blocks, read back after
  a cut at any byte.
- **The log-structured store** (`Lsm*.dfy`, `WriteBatch`, `GroupCommit*`): the
  compaction drop filter, `Version::Get`, overlap closure on level 0, the manifest
  from `LogAndApply` to recovery, write batches and group commit.
- **The iterator stack** (`Merger`, `DbIter`, `Block*`): the k-way merge, the
  user's view of internal entries, and the prefix-compressed block.
- **The formats** (`Coding`, `DiskLayout`): where each byte of the log, the
  manifest, a batch and a block stands.

Code that updates state in place is modelled by classes and methods with loops;
protocols are modelled as step machines over immutable states, with lemmas about
every run. User keys of the log-structured store are real numbers, because the
code only compares them and every countable order embeds in the reals.

Five things the code does not do as its callers might expect are stated exactly:

- An unparsable key in a compaction input can bring a deleted value back:
  `LsmCompaction.CompactionExact` says when, `CorruptKeyRevives` gives an input.
- `DBIter::Next` after a backward move can return the same entry again:
  `DbIter.DBIter.Next` says when, `DbIter.TurnRepeats` gives an input.
- Deleting an already deleted row, in one transaction or in two, keeps the row
  from ever being removed physically until it is written again:
  `DbxRemoval.DeleteIsQueued` says exactly when a row is queued,
  `SecondDeleteStrands` and `StrandedStays` what happens otherwise.
- `Get` on the secondary index does not replace the prepared node it used:
  `BTreeSession.Session.GetSecNode` says when NULL is stored,
  `SecondGetStoresNull` gives a run.
- `SeekToFirst` of the tree iterator loads an unused slot of an empty tree:
  `BTreeIterator.Iterator.SeekToFirst` says when, `StaleAfterEmptySeek` gives a run.

## Model

| member | source | states |
|---|---|---|
| DbxTheorems.InitialInv | AE/Code/euno_ycsb/db/rcu.h:19 | the empty store with any number of idle threads satisfies the protocol invariant |
| DbxTheorems.StepInv | AE/Code/euno_ycsb/db/dbtx.cc:336-457 | every atomic step of every thread (begin, point read, write, commit, abort, snapshot read, grace-period wait, freeing, physical removal) keeps the invariant: version counters fall along each chain and never pass the global snapshot, sequence numbers name values, no retired object is in use |
| DbxTheorems.RunInv | AE/Code/euno_ycsb/db/dbtx.cc:697-734 | the invariant holds in every state of every interleaving of any number of threads |
| DbxTheorems.CommittedReadsAreSerial | AE/Code/euno_ycsb/db/dbtx.cc:1255-1310 | in every run, replaying the committed transactions one after the other in commit order gives each of them exactly the read results it was given, although `Get` reads the value outside its atomic region; the replayed store is what the index holds, key by key in both directions |
| DbxTheorems.CommitLogsTransaction | AE/Code/euno_ycsb/db/dbtx.cc:697-734 | the serial log grows exactly at a commit, by the caller's own writes and results; no other step touches it |
| DbxTheorems.GarbageReadCannotCommit | AE/Code/euno_ycsb/db/dbtx.cc:132-150 | a transaction that was handed a removed row's pointer fails read-set validation from then on |
| DbxTheorems.AssertsHold | AE/Code/euno_ycsb/db/dbtx.cc:422-426 | the `assert(0)` branch of `Write` and the assertions of `RMPool::Remove` are unreachable in every run |
| DbxTheorems.SnapshotReadsAnyKey | AE/Code/euno_ycsb/db/dbrotx.cc:102-131 | at any moment of a read-only transaction the version-chain scan returns, for every key, the value of one fixed store; every result already returned agrees with that store |
| DbxTheorems.SnapshotIsStoreAtBegin | AE/Code/euno_ycsb/db/dbrotx.cc:66-81 | that fixed store is the replay of the commit log at the very step in which the transaction's `Begin` bumped the counter |
| DbxTheorems.BeginTakesStore | AE/Code/euno_ycsb/db/dbrotx.cc:66-81 | the bump takes the store as committed so far, whatever other threads are doing |
| DbxReclaimTheorems.FreeBuffersUnreachable | AE/Code/euno_ycsb/db/objpool.cc:80-104 | a value buffer on any free list is in no row, is not what any reader's snapshot scan can return, and is held by no transaction; that nothing else is kept from the free lists is `DbxConserve.ListsAreExact` |
| DbxReclaimTheorems.HeldBytesStay | AE/Code/euno_ycsb/db/rcu.cc:26-56 | bytes behind a pointer given to a running transaction do not change until it ends |
| DbxReclaimTheorems.FreeVersionsUnreachable | AE/Code/euno_ycsb/db/dbtables.cc:263-273 | no running read-only transaction's scan of any row walks into an old-version node that may be reused |
| DbxReclaimTheorems.VisitedIsIntact | AE/Code/euno_ycsb/db/dbrotx.cc:115-128 | every version node a reader visits is a retired version of that row, still intact |
| DbxReclaimTheorems.RunMoves | AE/Code/euno_ycsb/db/rmpool.cc:83-99 | over any stretch of any run a row's sequence number only grows, and changes whenever the row does |
| DbxReclaimTheorems.RemovesDeletedRow | AE/Code/euno_ycsb/db/rmpool.cc:73-104 | the row physically removed is logically deleted, is the one indexed under the queued key, and is absent from the committed store |
| DbxReclaimTheorems.RemovedAtMostOnce | AE/Code/euno_ycsb/db/rmpool.cc:73-104 | no node is removed twice in any run |
| DbxReclaimTheorems.QueuedByCommit | AE/Code/euno_ycsb/db/delset.cc:32-55 | only a commit of the same thread queues an object, and that transaction had written the delete |
| DbxReclaimTheorems.QueueingCommit | AE/Code/euno_ycsb/db/delset.cc:50-55 | every queued object goes back to such a commit |
| DbxReclaimTheorems.RemovalFollowsItsDelete | AE/Code/euno_ycsb/db/rmpool.cc:83-99 | the removed row was not touched between the commit that queued it and its removal, so the last committed write was that very delete, even if the key was re-added or written twice in one transaction |
| DbxCode.RcuState.constructor | AE/Code/euno_ycsb/db/rcu.h:19 | a fresh counter is number 0, ended |
| DbxCode.RcuState.Increment | AE/Code/euno_ycsb/db/rcu.h:23 | one below the end mark the number goes up and the mark stays |
| DbxCode.RcuState.ClearEnd | AE/Code/euno_ycsb/db/rcu.h:24 | the masking statement clears exactly the end mark |
| DbxCode.RcuState.EndTX | AE/Code/euno_ycsb/db/rcu.h:27-30 | sets exactly the end mark |
| DbxCode.RcuState.IsSafe | AE/Code/euno_ycsb/db/rcu.h:32-35 | the 64-bit comparison with a masked copy means: ended, or begun again since |
| DbxCode.GetStatesCopy | AE/Code/euno_ycsb/db/rcu.cc:75-83 | every thread's number without its end mark |
| DbxCode.ObjPool.constructor | AE/Code/euno_ycsb/db/objpool.cc:8-16 | nothing queued, nothing free |
| DbxCode.ObjPool.AddGCObj | AE/Code/euno_ycsb/db/objpool.cc:27-57 | the object is queued in front, nothing else moves, the newest list carries the given number |
| DbxCode.ObjPool.GetFreeObj | AE/Code/euno_ycsb/db/objpool.h:49-65 | takes the head of the free list, or nothing when it is empty |
| DbxCode.ObjPool.GC | AE/Code/euno_ycsb/db/objpool.cc:80-104 | every queued object moves to the free list exactly once, none is lost |
| DbxCode.ValidateReads | AE/Code/euno_ycsb/db/dbtx.cc:132-150 | reports no conflict exactly when every recorded sequence number is current, else the label of the first stale entry |
| DbxCode.LookupWrite | AE/Code/euno_ycsb/db/dbtx.cc:316-325 | the last write of the key in the write set |
| DbxCode.CheckWrites | AE/Code/euno_ycsb/db/dbtx.cc:431-438 | true exactly when no written row has been removed |
| DbxCode.ScanNode | AE/Code/euno_ycsb/db/dbrotx.cc:102-131 | the pointer chase computes the newest version at or below the snapshot, and terminates |
| DbxCommitCode.TxEnd.Overwrite | AE/Code/euno_ycsb/db/dbtx.cc:348-376 | same epoch: value and counter are replaced, the old pointer lands in the write-set slot, the sequence number goes up |
| DbxCommitCode.TxEnd.Push | AE/Code/euno_ycsb/db/dbtx.cc:377-421 | older epoch: the row's contents first move to an old-version node in front of its chain |
| DbxCommitCode.TxEnd.PushVersion | AE/Code/euno_ycsb/db/dbtables.cc:236-244 | a free version node is reused, or a new one made, never one still listed as free |
| DbxCommitCode.TxEnd.NoteDelete | AE/Code/euno_ycsb/db/dbtx.cc:356-366 | a delete of a live row, and nothing else, is queued for removal |
| DbxCommitCode.TxEnd.WriteSlot | AE/Code/euno_ycsb/db/dbtx.cc:340-428 | one round of the loop is one write of the protocol machine |
| DbxCommitCode.TxEnd.Write | AE/Code/euno_ycsb/db/dbtx.cc:336-428 | the whole loop is the machine's write of all entries, in order |
| DbxCommitCode.TxEnd.Collect | AE/Code/euno_ycsb/db/dbtx.cc:443-456 | each slot hands over its replaced buffer and its version node, and no other |
| DbxCommitCode.TxEnd.CollectOldVersions | AE/Code/euno_ycsb/db/dbtx.cc:441-457 | exactly the replaced buffers and version nodes are queued for reclamation |
| DbxCommitCode.TxEnd.GCRMNodes | AE/Code/euno_ycsb/db/delset.cc:50-55 | exactly the noted deletes join the removal queue, latest first |
| DbxCommitCode.TxEnd.Publish | AE/Code/euno_ycsb/db/dbtx.cc:697-734 | write, collect and queue together take the object from one machine state to the next |
| DbxCommitCode.CommitIsWriteMany | AE/Code/euno_ycsb/db/dbtx.cc:697-734 | the machine's commit is that imperative write applied to all entries |
| DbxCodeTheorems.CommitRunsPublish | AE/Code/euno_ycsb/db/dbtx.cc:697-734 | in every run each commit step meets the precondition of the imperative commit, and its effect is the machine's next state |
| DbxCodeTheorems.ReadersChaseLiveLinks | AE/Code/euno_ycsb/db/dbrotx.cc:102-131 | in every run a snapshot reader follows only live links to ever smaller counters, which is what the scan loop needs |
| DbxCodeTheorems.ChainDescends | AE/Code/euno_ycsb/db/dbrotx.cc:115-128 | along intact versions of a row the counters fall until the snapshot is reached |
| DbxConserve.StepPlaced | AE/Code/euno_ycsb/db/dbtx.cc:697-734 | every step keeps each buffer and each old-version node where its history says it is |
| DbxConserve.ListsAreExact | AE/Code/euno_ycsb/db/objpool.cc:27-104 | in every run a thread's free list holds exactly the buffers freed by it and not taken since, and its queue exactly those it has retired; likewise for version nodes |
| DbxConserve.BuffersAreKept | AE/Code/euno_ycsb/db/objpool.cc:27-104 | no buffer is ever lost: its address is in a row, a write set, a queue or a free list, unless an aborted transaction dropped it |
| DbxConserve.VersionsAreKept | AE/Code/euno_ycsb/db/objpool.cc:27-104 | no old-version node is ever lost |
| DbxConserve.QueuedBecomesFree | AE/Code/euno_ycsb/db/objpool.cc:80-104 | after the grace period exactly what was queued has joined the free lists, once, and the queues are empty |
| DbxConserve.Reclaim | AE/Code/euno_ycsb/db/dbtables.cc:263-273 | `OBJPool::GC` on both pools is the machine's step after the grace period |
| DbxConserve.TakeBuffer | AE/Code/euno_ycsb/db/dbtables.cc:246-248 | the buffer a write takes is the one the pool hands out, or a new one when the pool is empty |
| DbxProgress.UndisturbedCommits | AE/Code/euno_ycsb/db/dbtx.cc:697-734 | a transaction since whose begin nobody else has committed or removed a row can commit whenever it is between two calls |
| DbxProgress.CanMove | AE/Code/euno_ycsb/db/rcu.cc:26-56 | in every state every thread can take a step, unless it waits in a grace period for one named thread that is still in the transaction it was in |
| DbxRemoval.DeleteIsQueued | AE/Code/euno_ycsb/db/delset.cc:32-48 | a commit leaves a row queued for removal if and only if its last write to the row is a delete that finds the row live |
| DbxRemoval.SecondDeleteStrands | AE/Code/euno_ycsb/db/dbtx.cc:356-397 | deleting a deleted row once more takes it off every thread's queue |
| DbxRemoval.StrandedStays | AE/Code/euno_ycsb/db/rmpool.cc:73-104 | such a row stays in the index until some transaction writes it again |
| DbxRemoval.QueuedIsHandled | AE/Code/euno_ycsb/db/rmpool.cc:40-65 | what leaves a removal queue was first in it and was handled |
| DbxRemoval.QueuedIsRemoved | AE/Code/euno_ycsb/db/rmpool.cc:73-104 | and its row was then taken out of the index, or had been written since it was queued |
| DbxRemoval.DelayRemoveRemoves | AE/Code/euno_ycsb/db/dbtables.cc:275-282 | started while no other thread is in a transaction, `DelayRemove` runs to its end, and every queued row that was not written since is out of the index |
| DbxRemoval.GcFrees | AE/Code/euno_ycsb/db/dbtables.cc:263-273 | likewise `GC`, after which everything queued is free |
| BTreeNodes.FindInLeaf | AE/Code/euno_ycsb/memstore/secondindex_uint64bplustree.h:512-515 | the first slot whose key is not below the given one |
| BTreeNodes.FindAbove | AE/Code/euno_ycsb/memstore/secondindex_uint64bplustree.cc:148-152 | the first slot whose key is above the given one |
| BTreeNodes.FindChild | AE/Code/euno_ycsb/memstore/secondindex_uint64bplustree.h:347-350 | the child whose separators enclose the key |
| BTreeNodes.OpenSlot | AE/Code/euno_ycsb/memstore/secondindex_uint64bplustree.h:562-565 | slots from k on move up by one, the rest stays |
| BTreeNodes.CopySlots | AE/Code/euno_ycsb/memstore/secondindex_uint64bplustree.h:534-537 | the upper slots arrive in order |
| BTreeNodes.PutInLeaf | AE/Code/euno_ycsb/memstore/secondindex_uint64bplustree.h:562-569 | the leaf's entries with the new one in its place |
| BTreeNodes.SplitLeaf | AE/Code/euno_ycsb/memstore/secondindex_uint64bplustree.h:530-550 | the two halves together are the old entries, linked left to right |
| BTreeNodes.PutInInner | AE/Code/euno_ycsb/memstore/secondindex_uint64bplustree.h:394-400 | separator and child inserted side by side |
| BTreeNodes.SplitInner | AE/Code/euno_ycsb/memstore/secondindex_uint64bplustree.h:364-385 | seven separators stay, seven move, the middle one goes up and is stashed in the last slot |
| BTree.SplitAndPut | AE/Code/euno_ycsb/memstore/secondindex_uint64bplustree.h:529-569 | a full leaf is halved and the entry goes to its half; no entry is lost, both halves hold at least seven |
| BTree.BPlusTree.constructor | AE/Code/euno_ycsb/memstore/secondindex_uint64bplustree.h:113-118 | an empty tree is one leaf, whatever bytes its key slots hold |
| BTree.BPlusTree.LeafInsert | AE/Code/euno_ycsb/memstore/secondindex_uint64bplustree.h:510-583 | found keys change nothing; otherwise the leaf, or the leaf and its new sibling, take exactly that key, stay sorted and within bounds, and only the old leaf's sequence number moves |
| BTree.BPlusTree.AddChild | AE/Code/euno_ycsb/memstore/secondindex_uint64bplustree.h:424-469 | a new child is added to an inner node or to the right half of a split; the key left in the last slot is the separator of the halves |
| BTree.BPlusTree.Descend | AE/Code/euno_ycsb/memstore/secondindex_uint64bplustree.h:340-486 | the subtree keeps its depth, order, separators and fill, takes the key, and splits into at most two subtrees divided by the stashed key |
| BTree.BPlusTree.InnerInsert | AE/Code/euno_ycsb/memstore/secondindex_uint64bplustree.h:340-508 | the same, and a split root gets a new root over both halves |
| BTree.BPlusTree.GetSec | AE/Code/euno_ycsb/memstore/secondindex_uint64bplustree.h:300-338 | every call keeps the whole tree valid (uniform depth, sorted keys, separators bounding subtrees, 7 to 15 keys below the root, leaf chain equal to the in-order traversal); the map is the old one plus at most the one new key |
| BTree.BPlusTree.FindLeaf | AE/Code/euno_ycsb/memstore/secondindex_uint64bplustree.h:180-196 | all keys in earlier leaves are below the key and all in later leaves beyond it |
| BTree.BPlusTree.LeftmostLeaf | AE/Code/euno_ycsb/memstore/secondindex_uint64bplustree.cc:297-303 | the first leaf of the chain |
| BTreeEffect.ChainKept | AE/Code/euno_ycsb/memstore/secondindex_uint64bplustree.h:546-549 | relinking around the new leaf keeps the chain equal to the leaf order, both ways |
| BTreeEffect.GainIsUpdate | AE/Code/euno_ycsb/memstore/secondindex_uint64bplustree.h:562-569 | gaining one entry in sorted order is a map update at an absent key |
| BTreeSession.Session.constructor | AE/Code/euno_ycsb/memstore/secondindex_uint64bplustree.h:154-164 | a thread starts with a node of its own |
| BTreeSession.Session.GetWithInsert | AE/Code/euno_ycsb/memstore/secondindex_uint64bplustree.h:244-262 | every call returns the key's node, never NULL, adds at most that key; a new key gets a node that no other key and no other thread's prepared node has, and a fresh one is prepared |
| BTreeSession.Heap.New | AE/Code/euno_ycsb/memstore/secondindex_uint64bplustree.h:257-260 | no address is handed out twice |
| BTreeSession.Calls | AE/Code/euno_ycsb/memstore/secondindex_uint64bplustree.h:244-262 | over any calls by any threads, two calls return the same node exactly when they ask for the same key |
| BTreeSession.Session.GetSecNode | AE/Code/euno_ycsb/memstore/secondindex_uint64bplustree.h:231-235 | `Get` never replaces a used prepared node: it returns a real node exactly when the key was present or a prepared node was left |
| BTreeSession.SecondGetStoresNull | AE/Code/euno_ycsb/memstore/secondindex_uint64bplustree.h:231-235 | two `Get`s of absent keys by one thread: the second stores NULL in the tree |
| BTreeIterator.Iterator.constructor | AE/Code/euno_ycsb/memstore/secondindex_uint64bplustree.cc:111-115 | a new iterator is at no node |
| BTreeIterator.Iterator.Load | AE/Code/euno_ycsb/memstore/secondindex_uint64bplustree.cc:173-177 | key, value and leaf sequence number of the slot are taken together |
| BTreeIterator.Iterator.SkipForward | AE/Code/euno_ycsb/memstore/secondindex_uint64bplustree.cc:145-163 | from a stale position, the first larger key to the right, or the end when there is none |
| BTreeIterator.Iterator.Next | AE/Code/euno_ycsb/memstore/secondindex_uint64bplustree.cc:138-179 | the least key above the last one returned in the tree as it is at that moment, or the end exactly when there is none; the result says whether the leaf was unchanged |
| BTreeIterator.Iterator.SkipToKey | AE/Code/euno_ycsb/memstore/secondindex_uint64bplustree.cc:193-210 | from a stale position, the entry itself is found again to the right |
| BTreeIterator.Iterator.Prev | AE/Code/euno_ycsb/memstore/secondindex_uint64bplustree.cc:183-229 | the greatest key below the last one returned in the tree as it is at that moment, or the end exactly when there is none |
| BTreeIterator.Iterator.Seek | AE/Code/euno_ycsb/memstore/secondindex_uint64bplustree.cc:243-267 | the first key at or after the target, or the end exactly when all are below |
| BTreeIterator.Iterator.SeekToFirst | AE/Code/euno_ycsb/memstore/secondindex_uint64bplustree.cc:295-311 | the first entry, exactly when the tree is not empty; on an empty tree slot 0 of the leaf is loaded unused |
| BTreeIterator.LeafKept | AE/Code/euno_ycsb/memstore/secondindex_uint64bplustree.h:581 | an unchanged leaf sequence number means the slot still holds the same entry |
| BTreeIterator.PlacedKept | AE/Code/euno_ycsb/memstore/secondindex_uint64bplustree.h:529-582 | one insertion anywhere leaves the iterator's entry in its leaf or to the right of it |
| BTreeIterator.PlacedThroughout | AE/Code/euno_ycsb/memstore/secondindex_uint64bplustree.cc:138-179 | so do any number of insertions between two calls |
| BTreeIterator.StaleAfterEmptySeek | AE/Code/euno_ycsb/memstore/secondindex_uint64bplustree.cc:295-311 | after `SeekToFirst` on an empty tree and one insertion the iterator is valid on a key the tree does not hold |
| SkipListProof.InitialInv | AE/Code/euno_ycsb/memstore/memstore_skiplist.cc:34-53 | the empty list with any number of idle threads satisfies the invariant |
| SkipListTheorems.StepInv | AE/Code/euno_ycsb/memstore/memstore_skiplist.cc:381-452 | every read, check, lock, unlock, allocation and link of every thread keeps it |
| SkipListTheorems.RunInv | AE/Code/euno_ycsb/memstore/memstore_skiplist.cc:381-452 | it holds in every reachable state of any number of inserting threads |
| SkipListTheorems.FollowIs | AE/Code/euno_ycsb/memstore/memstore_skiplist.cc:296-317 | following the links of a level visits exactly that level's list |
| SkipListTheorems.LevelsAscend | AE/Code/euno_ycsb/memstore/memstore_skiplist.cc:296-317 | every level is strictly ascending along its links, in every reachable state |
| SkipListTheorems.LevelsNest | AE/Code/euno_ycsb/memstore/memstore_skiplist.cc:434-438 | every node linked at a level is linked at the level below |
| SkipListTheorems.KeysUnique | AE/Code/euno_ycsb/memstore/memstore_skiplist.cc:393-394 | no two linked nodes carry the same key |
| SkipListTheorems.OneNodePerKey | AE/Code/euno_ycsb/memstore/memstore_skiplist.cc:381-452 | all calls for a key return the same node, whichever threads made them |
| SkipListTheorems.LessIsPredecessor | AE/Code/euno_ycsb/memstore/memstore_skiplist.cc:219-237 | `FindLessThan` returns the last node before the key as of its last read, and its assertion never fails |
| SkipListTheorems.RunWhole | AE/Code/euno_ycsb/memstore/memstore_skiplist.cc:431-438 | a node still being linked belongs to one running call, so a quiet list is complete at every level |
| SkipListTheorems.StepWhole | AE/Code/euno_ycsb/memstore/memstore_skiplist.cc:431-438 | every step keeps that |
| SkipListTheorems.HeldAbove | AE/Code/euno_ycsb/memstore/memstore_skiplist.cc:401-412 | a thread waits only for a node before all nodes it holds |
| SkipListTheorems.WaitsDescend | AE/Code/euno_ycsb/memstore/memstore_skiplist.cc:401-412 | along a chain of waiting threads the nodes waited for come ever earlier |
| SkipListTheorems.WaitsAcyclic | AE/Code/euno_ycsb/memstore/memstore_skiplist.cc:401-412 | no set of threads wait for each other in a circle, in any reachable state |
| SkipListTheorems.OnlyLocksBlock | AE/Code/euno_ycsb/memstore/memstore_skiplist.cc:381-452 | every pointer a thread is about to follow is valid; only another thread's lock can hold it up |
| SkipListTheorems.SomeoneMoves | AE/Code/euno_ycsb/memstore/memstore_skiplist.cc:381-452 | while some call is unfinished some thread can move: no deadlock |
| SkipListProgress.ReturnedIsLinked | AE/Code/euno_ycsb/memstore/memstore_skiplist.cc:381-452 | every node a call has returned carries its key and is linked, in every reachable state |
| SkipListProgress.CallEnds | AE/Code/euno_ycsb/memstore/memstore_skiplist.cc:381-452 | a call that from any point on runs alone ends, an insertion with a linked node of its key, also if it has to search once more |
| LogFormat.FragsFit | AE/Code/euno_ycsb/db/log_writer.cc:27-73 | the fragments of any record, from any offset, fit their blocks |
| LogFormat.BytesAppend | AE/Code/euno_ycsb/db/log_writer.cc:27-73 | bytes of consecutive fragments concatenate |
| LogWriter.Writer.constructor | AE/Code/euno_ycsb/db/log_writer.cc:15-22 | an empty log |
| LogWriter.Writer.EmitPhysicalRecord | AE/Code/euno_ycsb/db/log_writer.cc:75-100 | exactly a header and the payload are appended |
| LogWriter.Writer.WriteFragment | AE/Code/euno_ycsb/db/log_writer.cc:35-71 | one round pads a short tail, then writes as much as the block has room for, with the right type |
| LogWriter.Writer.AddRecord | AE/Code/euno_ycsb/db/log_writer.cc:27-73 | the file is the encoding of the records written so far, with the new one at the end |
| LogWriter.FileSnoc | AE/Code/euno_ycsb/db/log_writer.cc:27-73 | appending a record appends its fragments to the file |
| LogReader.Reader.ReadBlock | AE/Code/euno_ycsb/db/log_reader.cc:182-195 | the next block, or what is left of the file |
| LogReader.Reader.ParseHeader | AE/Code/euno_ycsb/db/log_reader.cc:207-255 | checks length, zero type and checksum in the source's order |
| LogReader.ParseWritten | AE/Code/euno_ycsb/db/log_reader.cc:207-255 | a written header with its whole payload yields the payload; with less, a bad record |
| LogReader.Reader.ReadPhysicalRecord | AE/Code/euno_ycsb/db/log_reader.cc:179-256 | the next fragment if all of it is in the file, else the end |
| LogReader.AssembleFrag | AE/Code/euno_ycsb/db/log_reader.cc:74-160 | fragments add up to the record at its last or only fragment |
| LogReader.AcceptedFragments | AE/Code/euno_ycsb/db/log_reader.cc:207-255 | on any bytes a fragment is accepted exactly when it is complete, is no padding and has the right checksum |
| LogReader.RecordsAreNotMixed | AE/Code/euno_ycsb/db/log_reader.cc:74-160 | from any fragments, damaged logs included, a record is made only of one full fragment or of a first, middle and last ones that follow each other |
| LogReader.Reader.ReadRecord | AE/Code/euno_ycsb/db/log_reader.cc:59-162 | the next record, exactly when all of it is in the file |
| LogReader.ReadLog | AE/Code/euno_ycsb/db/log_reader.cc:59-162 | for every list of records and every cut at any byte, reading returns exactly the records that end at or before the cut, in order: empty records, seven-byte tails and empty first fragments included |
| Lsm.ReadsSomething | AE/Code/euno_ycsb/db/dbformat.cc:50-67 | every lookup has an answer |
| Lsm.ReadsOnce | AE/Code/euno_ycsb/db/dbformat.cc:50-67 | and, with one entry per version, only one |
| LsmCompaction.Compaction.constructor | AE/Code/euno_ycsb/db/version_set.cc:1388-1407 | cursors at the start are right for every key |
| LsmCompaction.Compaction.IsBaseLevelForKey | AE/Code/euno_ycsb/db/version_set.cc:1388-1407 | although its cursors only move forward, the answer is exact as long as keys do not go down |
| LsmCompaction.DropFilter | AE/Code/euno_ycsb/db/db_impl.cc:895-928 | the loop keeps exactly the items of the drop rule; which these are, in terms of readers, is `KeptExactly` |
| LsmCompaction.KeptExactly | AE/Code/euno_ycsb/db/db_impl.cc:895-928 | the output is, in input order, exactly the entries some reader at or above the smallest snapshot needs, without the deletions that have nothing left to hide; besides, only unparsable keys and entries right after one are kept |
| LsmCompaction.DroppedNewest | AE/Code/euno_ycsb/db/db_impl.cc:895-928 | the entry a reader wants is dropped only as a deletion that nothing kept outlives |
| LsmCompaction.CompactionPreservesReads | AE/Code/euno_ycsb/db/db_impl.cc:895-928 | for every key, every snapshot at or above the smallest one, and whatever lies above and below, the lookup is the same before and after |
| LsmCompaction.RevivedReads | AE/Code/euno_ycsb/db/db_impl.cc:896-900 | with an unparsable key in a bad place the reader at the smallest snapshot gets a value in place of nothing |
| LsmCompaction.CompactionExact | AE/Code/euno_ycsb/db/db_impl.cc:895-928 | all readers read as before if and only if no unparsable key stands right before an older value of a key whose newest visible entry is a dropped deletion |
| LsmCompaction.AllGoodNotRevived | AE/Code/euno_ycsb/db/db_impl.cc:896-900 | which cannot happen when every input key parses |
| LsmCompaction.CorruptKeyRevives | AE/Code/euno_ycsb/db/db_impl.cc:896-900 | a concrete input on which it happens |
| LsmVersion.FindFile | AE/Code/euno_ycsb/db/version_set.cc:91-110 | the first file whose largest key is not before the target |
| LsmVersion.TableGet | AE/Code/euno_ycsb/db/version_set.cc:273-286 | the newest matching version in the file |
| LsmVersion.LevelGet | AE/Code/euno_ycsb/db/version_set.cc:334-349 | searching one file settles a sorted level, even when a key's versions span two files |
| LsmVersion.Overlapping | AE/Code/euno_ycsb/db/version_set.cc:321-327 | a level-0 file left out holds no match |
| LsmVersion.SortNewestFirst | AE/Code/euno_ycsb/db/version_set.cc:330 | a permutation, newest file first |
| LsmVersion.Level0Get | AE/Code/euno_ycsb/db/version_set.cc:317-332 | the newest match over all level-0 files |
| LsmVersion.FirstHit | AE/Code/euno_ycsb/db/version_set.cc:292-389 | a hit in the shallowest level that has one is the newest version of all |
| LsmVersion.Get | AE/Code/euno_ycsb/db/version_set.cc:292-389 | what a flat search through every entry of every file would return, deletions included |
| LsmOverlap.GetOverlappingInputs | AE/Code/euno_ycsb/db/version_set.cc:450-489 | terminates; on level 0 returns exactly the files touching the least range that contains the request and every file touching it |
| LsmOverlap.TouchingHas | AE/Code/euno_ycsb/db/version_set.cc:450-489 | each file is returned exactly when it overlaps that range |
| LsmOverlap.TouchingInOrder | AE/Code/euno_ycsb/db/version_set.cc:450-489 | in the order of the level |
| LsmOverlap.LeastIsUnique | AE/Code/euno_ycsb/db/version_set.cc:450-489 | that range does not depend on the order of the files |
| LsmEdit.EncodeHead | AE/Code/euno_ycsb/db/version_edit.cc:42-61 | the optional fields present, in tag order |
| LsmEdit.EncodeTo | AE/Code/euno_ycsb/db/version_edit.cc:41-86 | the bytes of all fields of the edit |
| LsmEdit.DecodeFrom | AE/Code/euno_ycsb/db/version_edit.cc:109-210 | field by field until the input is used up or wrong |
| LsmEdit.BodyRoundTrip | AE/Code/euno_ycsb/db/version_edit.cc:123-198 | each field reads back as written, whatever follows it |
| LsmEdit.DecodeBytes | AE/Code/euno_ycsb/db/version_edit.cc:109-210 | any list of fields decodes to the edit they set |
| LsmEdit.DecodeThenRest | AE/Code/euno_ycsb/db/version_edit.cc:109-210 | what follows written fields is decoded on top of them |
| LsmEdit.SpoiltRecord | AE/Code/euno_ycsb/db/version_edit.cc:195-203 | an unknown tag, or bytes that are no tag, spoil the record wherever they come |
| LsmEdit.EditRoundTrip | AE/Code/euno_ycsb/db/version_edit.cc:109-210 | every edit is read back as it was written |
| LsmBuilder.SaveLevel | AE/Code/euno_ycsb/db/version_set.cc:631-656 | the merge of the base and the added files without the deleted ones |
| LsmBuilder.MergeSorted | AE/Code/euno_ycsb/db/version_set.cc:639-656 | that merge is sorted |
| LsmBuilder.SortedUnique | AE/Code/euno_ycsb/db/version_set.cc:523-535 | a sorted list is determined by its files |
| LsmBuilder.Builder.constructor | AE/Code/euno_ycsb/db/version_set.cc:549-558 | a builder starts with no changes over its base |
| LsmBuilder.Builder.ApplyEdit | AE/Code/euno_ycsb/db/version_set.cc:582-625 | deletions first, then additions, each re-added number leaving the deleted set; the additions stay in key order |
| LsmBuilder.Builder.SaveTo | AE/Code/euno_ycsb/db/version_set.cc:628-674 | every level of the new version, with smallest keys ascending and ties by number whenever the base was so |
| LsmBuilder.ReplayAgrees | AE/Code/euno_ycsb/db/version_set.cc:864-907 | after any number of edits one builder and version-by-version application agree on each level |
| LsmBuilder.ReplayIsCurrent | AE/Code/euno_ycsb/db/version_set.cc:988-1016 | the snapshot record and all later edits applied with one builder give the current version, file for file and in order |
| LsmBuilder.Recover | AE/Code/euno_ycsb/db/version_set.cc:830-907 | the files are the replay of all decoded records, and each counter is the one of the last record that carries it; it fails exactly on a bad record, a foreign comparator or missing counters |
| LsmBuilder.FieldsAreLast | AE/Code/euno_ycsb/db/version_set.cc:888-906 | later records overwrite earlier ones, counter by counter |
| LsmBuilder.SavedInKeyOrder | AE/Code/euno_ycsb/db/version_set.cc:523-535 | whatever the edits, the merge keeps the comparator's order of smallest keys, ties in ascending number |
| LsmBuilder.ManifestDecodes | AE/Code/euno_ycsb/db/version_set.cc:864-907 | a written manifest decodes to the edits written |
| LsmBuilder.ManifestReplay | AE/Code/euno_ycsb/db/version_set.cc:752-757 | replaying what a written manifest decodes to gives the version the store had in memory |
| LsmBuilder.RecoveredIsCurrent | AE/Code/euno_ycsb/db/version_set.cc:830-907 | so `Recover` on a manifest the store wrote ends with exactly the store's own file lists |
| LsmManifest.EditMeans | AE/Code/euno_ycsb/db/version_set.cc:582-625 | the files of a level after one edit: old and new ones without the deleted numbers, where a number added back counts as not deleted |
| LsmManifest.CurrentInKeyOrder | AE/Code/euno_ycsb/db/version_set.cc:628-674 | every level of every version reached by edits is in key order |
| LsmManifest.RecoveredInKeyOrder | AE/Code/euno_ycsb/db/version_set.cc:864-907 | so is what is recovered from any manifest |
| LsmManifest.KeyOrderServesLookups | AE/Code/euno_ycsb/db/version_set.cc:91-110 | a level in key order with disjoint ranges is sorted as the binary search of `FindFile` requires |
| LsmManifest.VersionSet.constructor | AE/Code/euno_ycsb/db/version_set.cc:692-711 | a version set with an open version and no manifest yet |
| LsmManifest.VersionSet.NewFileNumber | AE/Code/euno_ycsb/db/version_set.h:176 | numbers are given out once |
| LsmManifest.VersionSet.SetLastSequence | AE/Code/euno_ycsb/db/version_set.h:197-200 | the last sequence never goes down |
| LsmManifest.VersionSet.WriteSnapshot | AE/Code/euno_ycsb/db/version_set.cc:988-1016 | every file of every level, in order |
| LsmManifest.VersionSet.LogEdit | AE/Code/euno_ycsb/db/version_set.cc:764-790 | the edit is written behind a snapshot of the version it applies to and all edits since |
| LsmManifest.VersionSet.LogAndApply | AE/Code/euno_ycsb/db/version_set.cc:737-824 | the edit is stamped with the counters, applied and recorded; the manifest then holds a snapshot and edits that lead to the current version |
| LsmManifest.Reopen | AE/Code/euno_ycsb/db/version_set.cc:830-935 | recovery from the manifest of a running store succeeds and gives back its file lists in key order, its log numbers and the counters of the last edit; no number a file still carries is given out again |
| WriteBatch.Batch.constructor | AE/Code/euno_ycsb/db/write_batch.cc:29-40 | an empty batch of twelve zero bytes |
| WriteBatch.Batch.SetCount | AE/Code/euno_ycsb/db/write_batch.cc:86-88 | patches the count and nothing else |
| WriteBatch.Batch.SetSequence | AE/Code/euno_ycsb/db/write_batch.cc:94-96 | patches the sequence number and nothing else |
| WriteBatch.Batch.Add | AE/Code/euno_ycsb/db/write_batch.cc:98-109 | the update is appended and counted |
| WriteBatch.Batch.Append | AE/Code/euno_ycsb/db/write_batch.cc:141-146 | the other batch's updates follow this one's, and both are counted |
| WriteBatch.Batch.Iterate | AE/Code/euno_ycsb/db/write_batch.cc:42-80 | on any bytes, the updates up to the first malformed one; on a batch that was built, all of them and OK |
| WriteBatch.OpsRoundTrip | AE/Code/euno_ycsb/db/write_batch.cc:42-80 | parsing undoes appending for every list of updates |
| WriteBatch.OpsThenRest | AE/Code/euno_ycsb/db/write_batch.cc:42-80 | what follows a list of updates is read as if it stood alone, and a malformed rest yields the updates before it and an error |
| GroupCommit.BuildBatchGroup | AE/Code/euno_ycsb/db/db_impl.cc:1200-1245 | the group is a prefix of the queue and the joint batch its updates in order; its bytes stay within the limit, no sync writer rides on a leader that does not sync, and the first writer left out would break one of the two |
| GroupCommit.GroupSync | AE/Code/euno_ycsb/db/db_impl.cc:1221-1224 | a writer that asks for a sync joins only a leader that syncs |
| GroupCommit.MaximalIsUnique | AE/Code/euno_ycsb/db/db_impl.cc:1206-1243 | only one length of group meets this, when every batch has some bytes |
| GroupCommitProof.InitialInv | AE/Code/euno_ycsb/db/db_impl.cc:1135-1148 | holds of a store nobody has written to |
| GroupCommitProof.StepInv | AE/Code/euno_ycsb/db/db_impl.cc:1135-1196 | every step of every writer keeps the group-commit invariant |
| GroupCommitProof.RunInv | AE/Code/euno_ycsb/db/db_impl.cc:1135-1196 | it holds in every state of every run of concurrent writes |
| GroupCommitProof.BatchInserted | AE/Code/euno_ycsb/db/db_impl.cc:1152-1177 | every batch that returned OK is in the memtable once, whole, in queue order, under its own run of sequence numbers |
| GroupCommitProof.LogIsContiguous | AE/Code/euno_ycsb/db/db_impl.cc:1152-1168 | log records follow each other without gap or overlap and together hold exactly the accepted updates |
| GroupCommitProof.SyncedBeforeOk | AE/Code/euno_ycsb/db/db_impl.cc:1166-1168 | a sync write that returned OK is in a synced record |
| GroupCommitProof.FirstComeFirstServed | AE/Code/euno_ycsb/db/db_impl.cc:1179-1188 | calls finish in the order they arrived |
| GroupCommitProof.ReadersSeeWholeBatches | AE/Code/euno_ycsb/db/db_impl.cc:1063-1069 | a published sequence number shows exactly the finished batches, never part of one |
| GroupCommitProof.SnapshotsStay | AE/Code/euno_ycsb/db/db_impl.cc:1116-1119 | a snapshot taken at any moment shows the same updates ever after |
| GroupCommitProof.MemOnlyGrows | AE/Code/euno_ycsb/db/db_impl.cc:1169-1171 | the memtable only ever gains entries at its end |
| GroupCommitProof.WaitingCanMove | AE/Code/euno_ycsb/db/db_impl.cc:1135-1196 | while any call waits, some step other than a new arrival is possible |
| GroupCommitProof.FrontIsServed | AE/Code/euno_ycsb/db/db_impl.cc:1135-1196 | with room and a working log the writer in front comes to its end and returns OK |
| Merger.MergingIterator.constructor | AE/Code/euno_ycsb/table/merger.cc:16-25 | a new iterator is at no key |
| Merger.MergingIterator.FindSmallest | AE/Code/euno_ycsb/table/merger.cc:155-168 | the least key any child stands at |
| Merger.MergingIterator.FindLargest | AE/Code/euno_ycsb/table/merger.cc:170-183 | the greatest key any child stands at |
| Merger.MergingIterator.SeekToFirst | AE/Code/euno_ycsb/table/merger.cc:35-41 | the least key of all children, or invalid exactly when there is none |
| Merger.MergingIterator.SeekToLast | AE/Code/euno_ycsb/table/merger.cc:43-49 | the greatest key of all children, or invalid exactly when there is none |
| Merger.MergingIterator.Seek | AE/Code/euno_ycsb/table/merger.cc:51-57 | the least key at or after the target, or invalid exactly when all are below |
| Merger.MergingIterator.Next | AE/Code/euno_ycsb/table/merger.cc:59-83 | the least key above the current one, also right after moving backwards |
| Merger.MergingIterator.Prev | AE/Code/euno_ycsb/table/merger.cc:85-112 | the greatest key below the current one, also right after moving forwards |
| Merger.MovesOnePlace | AE/Code/euno_ycsb/table/merger.cc:59-112 | those are one place up and one place down in the sorted merge, and fall off only at its ends |
| Merger.Walk | AE/Code/euno_ycsb/table/merger.cc:35-112 | any run of moves, with any direction switches, is the same run of a plain cursor on the sorted merge of all children |
| DbIter.DBIter.constructor | AE/Code/euno_ycsb/db/db_iter.cc:49-58 | a new iterator is not valid |
| DbIter.DBIter.ParseKey | AE/Code/euno_ycsb/db/db_iter.cc:120-127 | rejects a bad type byte and remembers the corruption |
| DbIter.DBIter.FindNextUserEntry | AE/Code/euno_ycsb/db/db_iter.cc:155-185 | the first entry from here on whose key is not to be skipped and whose newest visible version is a value |
| DbIter.DBIter.FindPrevUserEntry | AE/Code/euno_ycsb/db/db_iter.cc:214-254 | the last entry up to here that is the newest visible version of its key and a value; the position is then right behind that key |
| DbIter.DBIter.SeekToFirst | AE/Code/euno_ycsb/db/db_iter.cc:270-279 | the first shown entry, or invalid exactly when none is shown |
| DbIter.DBIter.SeekToLast | AE/Code/euno_ycsb/db/db_iter.cc:281-286 | the last shown entry, or invalid exactly when none is shown |
| DbIter.DBIter.Seek | AE/Code/euno_ycsb/db/db_iter.cc:256-268 | the first shown key at or after the target |
| DbIter.DBIter.Next | AE/Code/euno_ycsb/db/db_iter.cc:129-153 | the next shown entry; after a backward move exactly when the entry behind the internal position already has the user's key, and otherwise the same entry once more |
| DbIter.DBIter.Prev | AE/Code/euno_ycsb/db/db_iter.cc:187-212 | the shown entry before, in either direction of travel |
| DbIter.ScanForward | AE/Code/euno_ycsb/db/db_iter.cc:129-185 | `SeekToFirst` and repeated `Next` yield every shown pair exactly once in ascending order, and report corruption exactly when some entry does not parse |
| DbIter.ScanBackward | AE/Code/euno_ycsb/db/db_iter.cc:187-286 | `SeekToLast` and repeated `Prev` yield the same pairs in descending order, with the same report |
| DbIter.ShownIsRead | AE/Code/euno_ycsb/db/db_iter.cc:155-185 | a pair is shown exactly when a lookup of its key at the snapshot returns its value |
| DbIter.ShownGrow | AE/Code/euno_ycsb/db/db_iter.cc:155-185 | shown entries have strictly growing keys |
| DbIter.TurnRepeats | AE/Code/euno_ycsb/db/db_iter.cc:129-153 | an input on which `Next` after `SeekToLast` stays on the last key |
| BlockFormat.FastPathAgrees | AE/Code/euno_ycsb/table/block.cc:60-67 | three bytes below 128 are what the varint path would decode |
| BlockFormat.DecodeEntryIs | AE/Code/euno_ycsb/table/block.cc:52-73 | on any bytes at all, the entry decoder is the varint path and the 32-bit length check |
| BlockFormat.OrBelow128 | AE/Code/euno_ycsb/table/block.cc:60 | the bitwise test is the three comparisons |
| BlockFormat.EncodeDecodes | AE/Code/euno_ycsb/table/block.cc:52-73 | an encoded entry decodes to its lengths and bytes, whatever follows it |
| BlockBuilder.SharedPrefix | AE/Code/euno_ycsb/table/block_builder.cc:79-85 | the longest common prefix of two keys |
| BlockBuilder.Builder.constructor | AE/Code/euno_ycsb/table/block_builder.cc:39-46 | an empty builder with one restart at offset 0 |
| BlockBuilder.Builder.AppendEntry | AE/Code/euno_ycsb/table/block_builder.cc:91-100 | exactly the encoded entry is appended |
| BlockBuilder.Builder.Add | AE/Code/euno_ycsb/table/block_builder.cc:73-107 | the block under construction holds the entries so far and this one; a restart entry shares nothing, restarts are the interval apart, and every other entry shares the longest prefix it can |
| BlockBuilder.Builder.Finish | AE/Code/euno_ycsb/table/block_builder.cc:63-71 | the finished block holds exactly the entries added, compressed as far as possible, its restart offsets and their count |
| BlockIter.Iter.constructor | AE/Code/euno_ycsb/table/block.cc:114-125 | starts at no entry, with limit and restart count read from the block's end |
| BlockIter.Iter.GetRestartPoint | AE/Code/euno_ycsb/table/block.cc:98-101 | the offset of that restart entry |
| BlockIter.Iter.SeekToRestartPoint | AE/Code/euno_ycsb/table/block.cc:103-111 | the restart entry is next to be parsed |
| BlockIter.Iter.ParseNextKey | AE/Code/euno_ycsb/table/block.cc:229-256 | key and value of the next entry, rebuilt from the shared prefix, or the end after the last one |
| BlockIter.Iter.AdvanceRestart | AE/Code/euno_ycsb/table/block.cc:250-253 | the restart index follows the current entry |
| BlockIter.Iter.SeekToFirst | AE/Code/euno_ycsb/table/block.cc:208-211 | the first entry, if any |
| BlockIter.Iter.SeekToLast | AE/Code/euno_ycsb/table/block.cc:213-218 | the last entry, if any |
| BlockIter.Iter.Next | AE/Code/euno_ycsb/table/block.cc:142-145 | entry i + 1 after entry i |
| BlockIter.Iter.Prev | AE/Code/euno_ycsb/table/block.cc:147-166 | entry i - 1 before entry i, so it undoes `Next`; none before the first |
| BlockIter.Iter.Seek | AE/Code/euno_ycsb/table/block.cc:168-206 | the first key at or after the target, under any key order, by binary search over restarts |
| BlockIter.Scan | AE/Code/euno_ycsb/table/block.cc:208-211 | a forward scan returns the entries |
| BlockIter.RoundTrip | AE/Code/euno_ycsb/table/block_builder.cc:63-107 | for every strictly increasing list and every restart interval, building and scanning gives the list back |
| DiskLayout.VarintBytes | AE/Code/euno_ycsb/util/coding.cc:47-96 | byte i is the i-th group of seven bits, the top bit set on all bytes but the last |
| DiskLayout.VarintIsShortest | AE/Code/euno_ycsb/util/coding.cc:47-96 | as many bytes as needed and no more |
| DiskLayout.FixedBytes | AE/Code/euno_ycsb/util/coding.cc:9-18 | fixed numbers are little-endian |
| DiskLayout.FixedInverse | AE/Code/euno_ycsb/util/coding.cc:9-18 | four bytes stand for one number only |
| DiskLayout.FragmentsOfRecord | AE/Code/euno_ycsb/db/log_writer.cc:27-73 | a record is one fragment of type 1, or one of type 2, some of type 3 and one of type 4; every fragment but the last runs to the end of its block; together they are the record |
| DiskLayout.FragmentLayout | AE/Code/euno_ycsb/db/log_writer.cc:75-100 | zeros where fewer than seven bytes are left, masked checksum of type and payload, two bytes of length, type, payload |
| DiskLayout.UpdateLayout | AE/Code/euno_ycsb/db/write_batch.cc:98-109 | type byte 1 or 0, then length-prefixed key and value |
| DiskLayout.BatchLayout | AE/Code/euno_ycsb/db/write_batch.cc:29-40 | four bytes of count after eight of sequence number, then the updates |
| DiskLayout.NumberLayout | AE/Code/euno_ycsb/db/version_edit.cc:46-61 | tags 2, 3, 4 and 9 and a varint |
| DiskLayout.FieldLayout | AE/Code/euno_ycsb/db/version_edit.cc:42-75 | tags 1, 5 and 6 and their contents |
| DiskLayout.FileLayout | AE/Code/euno_ycsb/db/version_edit.cc:77-85 | tag 7, level, number, size, smallest and largest key |
| DiskLayout.EditLayout | AE/Code/euno_ycsb/db/version_edit.cc:41-86 | the order in which the fields are written |
| DiskLayout.EntryLayout | AE/Code/euno_ycsb/table/block_builder.cc:93-100 | shared length, unshared length, value length, unshared key bytes, value |
| Coding.VarintRoundTrip | AE/Code/euno_ycsb/util/coding.cc:47-96 | every number that fits reads back from its varint, whatever follows |
| Coding.Varint32RoundTrip | AE/Code/euno_ycsb/util/coding.cc:112-141 | 32-bit numbers read back |
| Coding.Varint64RoundTrip | AE/Code/euno_ycsb/util/coding.cc:143-170 | 64-bit numbers read back |
| Coding.SliceRoundTrip | AE/Code/euno_ycsb/util/coding.cc:98-101 | length-prefixed strings read back |
| Coding.Fixed32RoundTrip | AE/Code/euno_ycsb/util/coding.cc:9-18 | fixed 32-bit numbers read back |
| Coding.Fixed64RoundTrip | AE/Code/euno_ycsb/util/coding.cc:20-33 | fixed 64-bit numbers read back |

## Left out

- The per-thread `BufferNode` cache in `DBTX::Add`: the plain index lookup is modelled.
- `DBTX` and `DBROTX` range iterators and secondary-index scans: the primary tree sources are not part of this model.
- `TupleInsert`: the store is filled only by transactions, which is what makes a counter of 0 mean "no committed value".
- Recycling of index nodes and the `gcRef` hand-off: nodes keep their identity for the whole run.
- The thresholds that start `GC` and `DelayRemove`: the machine may start them at any time.
- One pool per table: a thread has one pool for values and one for old versions.
- `DELSet`'s limit of 64 entries, after which the program exits.
- Wrap-around of the 64-bit sequence, snapshot and RCU counters after 2^63 steps; `RcuState` shows the bit-level encoding up to that point.
- The `PERSISTENT` build, `TBuf`/`PBuf`, logger threads and epoch queues: I/O and timing code.
- Hardware aborts and retries: a hardware transaction is one step that happens or does not.
- The B+ tree's nodes live in one sequence indexed by address, with fixed-length slot sequences inside; heap allocation and C++ arrays are not modelled.
- `Insert_Sec`'s list of wrappers under a secondary key, `RoGet`, `SeekPrev`, `SeekToLast` and the `link_`/`target_` fields.
- `SeekToFirst` of the tree iterator walks down outside the hardware transaction; it is modelled as one step.
- Wrap-around of a leaf's `seq`.
- Skip list: the lock-free and RTM variants, plain `Get`, and the uninitialised lock word of a new node, which is taken to be free. With node locks `max_height_` stays 1, so `FindLessThan` walks the lowest level.
- Log: read errors, `initial_offset`, and the text and byte counts of corruption reports.
- LogReader.Reader.ReadRecord: its own contract is for a written log cut at any byte; for other bytes see AcceptedFragments and RecordsAreNotMixed.
- CRC: an abstract function for which extending agrees with concatenation and unmasking undoes masking.
- `Version::Get`: unparsable table entries, bloom filters and seek statistics.
- Compaction: splitting of output files and the choice of inputs.
- `Builder`: compaction pointers of the version and the debug check of overlaps in `SaveTo`.
- `ReuseFileNumber`, called only after a new log file could not be created.
- `LogAndApply` with a failing manifest and the compaction pointers it updates; group commit with a failing log, `MakeRoomForWrite`, and the switch to a new memtable: one logical memtable is modelled.
- LsmVersion.SortNewestFirst: `std::sort` is modelled by an insertion sort with the same contract.
- LsmBuilder.ReplayIsCurrent: for runs in which no file is added again at a level that already held it, as the store's own numbering ensures.
- Merger.Walk: for children with pairwise distinct keys, as internal keys are; a child iterator is a sorted list and a position.
- Block: blocks not made by the builder, that is the `CorruptionError` paths and the size checks of `Block::Block`.
- BlockBuilder.Builder.Finish: for blocks below 4 GB, because offsets are stored in 32 bits.
- BlockIter.RoundTrip: for lists whose block stays below 4 GB.
- `BlockBuilder::Reset` and size estimates.
- Snappy, filters, the table cache, `TwoLevelIterator`, reference counts, compaction scheduling, options, environments and benchmarks.
