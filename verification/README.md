# Verified core of the IOST node

This project models the deciding parts of the IOST node in Dafny and proves what they promise.

* **Block cache** (`BlockTree*.dfy`, `CacheRuns.dfy`, `Finality.dfy`, `NumberIndex.dfy`, `AdvanceFacts.dfy`,
  `TreeFacts.dfy`, `Forks.dfy`, `RootWitnesses.dfy`, `Incumbents.dfy`, `Housekeeping.dfy`, `PrunedHead.dfy`,
  `BlockCache.dfy`). The fork tree above the last irreversible block, with its head, leaves, orphans below virtual
  nodes, confirmation lists (`ValidWitness`), producer lists and the lazily repaired index by number.
  The class `BlockCacheImpl.BlockCache` updates nodes in place. `View()` is the snapshot of all its nodes and
  fields; every method is specified by its effect on the snapshot, and the invariant `State.Inv` and the run
  theorems are about sequences of such snapshots. A method that takes several steps returns the run it made as a
  ghost trace.
* **Chain base and replay protection** (`Replay.dfy`, `ChainRuns.dfy`, `ChainFacts.dfy`, `ChainSteps.dfy`,
  `ChainProgress.dfy`, `Expiry.dfy`, `ChainBase.dfy`). Verification of a block against its parent and the index of
  recent blocks, linking, moving the root, pooling, the recursion into waiting orphans, and the start of a node.
* **Transaction pool** (`ForkSwitch.dfy`, `SortedTxMap.dfy`, `TxPool.dfy`). The index of recent blocks, and the
  pending transactions across fork switches.
* **Write-ahead log** (`WalFormat.dfy`, `WalRead.dfy`, `WalCrash.dfy`, `Wire.dfy`, `WalProto.dfy`, `Crc64.dfy`,
  `WalLoss.dfy`, `WalTornEntry.dfy`, `WalDamage.dfy`, `PageWriter.dfy`, `Wal.dfy`). Frames, running checksum across
  segments, page-aligned buffering, reading back, what a crash leaves and which damage is noticed, first
  for any encoding and checksum, and then for the protocol-buffer messages and the CRC-64 of the log.
* **Fixed-point numbers** (`FixedNum.dfy`, `FixedText.dfy`, `FixedParse.dfy`), **Merkle tree** (`MerkleSpec.dfy`,
  `MerkleTree.dfy`), **canonical encoding** (`Encoding.dfy`, `SimpleEncoder.dfy`), **gas** (`Gas.dfy`) and the
  **light client** (`Spv.dfy`).

`GoInt.dfy`, `Arithmetic.dfy`, `Bytes.dfy`, `Options.dfy`, `Sequences.dfy` and `Blocks.dfy` hold what the others
share: Go's 64-bit arithmetic is written out wherever it can wrap.

## Assumptions

* Hashes are perfect. A head hash is the term `Sha3(head)`, so hashing is injective and parent hashes have no
  cycles. The Merkle roots in a head stand for the list of transactions and the list of receipts.
  `MerkleSpec.RootCommits` and `MerkleSpec.DuplicatesCollide` say how far the real tree justifies this: for lists
  without duplicates, and `verifyBlock` rejects duplicate transactions.
* A transaction in a block has the fields that the rules inspect, and the hashed bytes for all others.
  `Encoding.SummaryUnique` says that this loses nothing.
* Time, the state database, signatures, the execution of contracts and the rest of `VerifySelf` are inputs
  (`ChainSteps.Env`, `Gas.Action`, `Gas.Candidate`, `Spv.Net`).
* The theorems on writing, reading and crashes of the log hold for every codec that decodes the records whose
  encoding fits into the 56 bits of the length field, and for every checksum that is a function of the previous
  checksum and the data (`WalFormat.Codec`). The records written are only required to fit. The messages of the log
  are such a codec (`WalProto.ProtoCodecIsValid`). The table-driven CRC-64 is that of Go's standard library, which
  is not part of the repository; it is written out in `Crc64.dfy`.
* `ChainSteps.Regular`: the producer list read from the state of a vote block is not empty, and the base
  transaction of a block that executes has a time and gas ratio that `compareTx` can order.
* Each public operation is one atomic step.

## Where the code does less than it seems to promise

Each of these has a lemma with the exact condition and one with an input that fails.

* Printing and parsing a fixed-point number is not always a round trip: a negative number with decimals is
  trimmed twice, so -100.0 prints as "-1" (`FixedText.RoundTripExact`, `FixedText.MinusHundredLosesZeros`).
* Parsing reads the first decimal also where none is wanted, so a number that fits is refused exactly if it does not
  fit with that digit (`FixedParse.ParseExact`, `FixedParse.DroppedDecimal`, `FixedParse.TruncatedOverflows`).
* `Add` misses the overflow of the smallest number added to itself (`FixedNum.AddExact`,
  `FixedNum.SmallestTwiceIsZero`), and `Multiply` that of -1 times the smallest number (`FixedNum.MultiplyExact`,
  `FixedNum.MultiplyOverflowExact`, `FixedNum.MinusOneTimesSmallestIsWrong`).
* The comment on `ChangeDecimal` says that the value is unchanged; towards fewer decimals it is truncated
  exactly if a digit other than zero is cut off (`FixedNum.ChangeDecimalKeeps`, `FixedNum.FewerDecimalsLose`).
* `compareTx` is the order it means to be exactly if the difference it takes does not overflow
  (`SortedTxs.CompareTxExact`, `SortedTxs.SmallestRatioIsMisplaced`). Transactions that pass verification are
  within that range. The base transaction of a block is not checked for it (`ChainSteps.BaseIsUnchecked`).
* `PrepareTx` admits a transaction on which `Run` then stops the node, exactly if less than one unit of gas is
  left (`Gas.PreparedLeavesGas`, `Gas.PreparedCanBeFatal`).
* The head of the cache may have been pruned after the root moved; it survives exactly if it descends from the
  new root (`TreeFacts.Survivors`, `PrunedHead.HeadCanBePruned`). Head properties are about live nodes.
* A restarted node fills its index of recent blocks by the clock. The index covers the window behind the last
  block exactly if no block has left the window meanwhile; otherwise a transaction can be replayed
  (`Replay.StartExact`, `Replay.ReplayExact`, `Replay.LateStartReplays`).
* After a torn write, what is saved next is read back exactly if the torn record has not changed the running
  checksum. It has if the sector boundary cuts off the last byte of its checksum and nothing else
  (`WalLoss.ReadBackExact`, `WalTornEntry.NextEntryIsLost`).
* A closed file of the log that has lost its end is not noticed if the cut goes through a record: reading ends there
  without an error, and all later files are dropped. Between two records it is noticed exactly if the next file does
  not continue the checksum (`WalDamage.CutFileExact`, `WalDamage.LaterFilesAreDropped`).
* `PayCost` is meant never to find a bill above the limit. For a deferred transaction it does, and stops the node,
  exactly if the actions leave less gas than the record of the delayed transaction costs, so whenever they end for
  lack of gas or time (`Gas.OverdrawnExact`, `Gas.DeferredOverdraws`, `Gas.DeferredCanBeFatal`).
* The light client does not compare receipts with the head. For one confirmed head it may record every complete
  list that some receipts carry; with the comparison it would record the list that the head commits to and no
  other (`Spv.RecordableExact`, `Spv.AnyListIsAccepted`).
* A Merkle tree that is built again over no data keeps its old index; asking it for a path then reads past the
  end of the array exactly if the old tree had more than one leaf and held the hash
  (`MerkleTreeImpl.MerkleTree.MerklePath`, `MerkleTreeImpl.RebuiltOverNothing`).

## Model

| member | source | states |
|---|---|---|
| CacheRuns.RunIsSafe | core/blockcache/block_cache.go:415-700 | on every run of the cache every state keeps the whole invariant (tree under the root with consecutive numbers, exact leaves, no live node beats the head, index closed under parents, confirmation lists, serial numbers), the irreversible chain only grows, and the head number never decreases |
| CacheRuns.StepKeepsInv | core/blockcache/block_cache.go:497-700 | each single step (new virtual node, arrival of a block, removal, numbering, link, switch, root move, index repair) keeps that invariant |
| CacheRuns.StepExtends | core/blockcache/block_cache.go:669-725 | each step keeps the irreversible blocks one parent-linked chain with consecutive numbers that ends in the root |
| CacheRuns.AdvancesEffect | core/blockcache/block_cache.go:669-700 | a root move appends the new root to the irreversible chain, removes nodes, and leaves the blocks, places and lists of all survivors alone |
| BlockTreeAdd.InitialInv | core/blockcache/block_cache.go:276-332 | a cache that holds only the last irreversible block satisfies the invariant |
| BlockTreeAdd.WithVirtualKeepsInv | core/blockcache/block_cache.go:595-620 | a virtual node for an unseen parent keeps the invariant |
| BlockTreeAdd.FilledKeepsInv | core/blockcache/block_cache.go:595-620 | filling a virtual node with its block, below its parent, keeps the invariant |
| BlockTreeAdd.DetachedKeepsInv | core/blockcache/block_cache.go:638-646 | removing a closed set of nodes that leaves no live node childless keeps the invariant |
| BlockTreeLink.LinkedKeepsInv | core/blockcache/block_cache.go:497-515 | linking a verified block keeps the invariant: leaves, head, index, lists and serial numbers |
| BlockTreeLink.LinkedLeaf | core/blockcache/block_cache.go:497-515 | after a link a node is a leaf exactly if it is the new one, or was a leaf and is not the parent |
| BlockTreeLink.SwitchedKeepsInv | core/blockcache/block_cache.go:477-494 | filtering the list of a new leaf by the root's pending list keeps the invariant |
| BlockTreeLink.ValidWitnessIsActive | core/blockcache/block_cache.go:168-180 | the confirmation list never leaves the active list |
| BlockTreeRoot.ExposedStep | core/blockcache/block_cache.go:182-196 | the early-stopping recursion reaches a node exactly if it reaches the parent and the producer differs from the new root's |
| BlockTreeRoot.NewRootWitnesses | core/blockcache/block_cache.go:680-687 | so after the root moved all lists are again exact, although the recursion stops early |
| BlockTreeRoot.NewRootKeepsInv | core/blockcache/block_cache.go:669-687 | replacing the root by a child keeps the invariant |
| BlockTreeRoot.SweptKeepsInv | core/blockcache/block_cache.go:648-667 | dropping outdated orphans keeps the invariant |
| Housekeeping.SweptExact | core/blockcache/block_cache.go:648-667 | a node is dropped exactly at a root number that ten divides, and if the chain of orphans it belongs to starts no higher than the root |
| Housekeeping.SweptTopExact | core/blockcache/block_cache.go:648-667 | of the first blocks of such chains exactly those above the root stay |
| Housekeeping.SweptVirtualExact | core/blockcache/block_cache.go:663-665 | a virtual node goes exactly if it had children and loses all of them |
| Housekeeping.DroppedNeverLinks | core/blockcache/block_cache.go:658 | what is dropped for its number could not have been linked below any live block |
| Housekeeping.RunTrimmed | core/blockcache/block_cache.go:683 | in no state of a run is a number below the root indexed |
| Housekeeping.InitialTrimmed | core/blockcache/block_cache.go:276-332 | which is so in a new cache |
| BlockTreeStrip.ExposedRecursion | core/blockcache/block_cache.go:182-196 | the nodes reached from b are b and those reached from its children |
| BlockTreeDel.DetachedLast | core/blockcache/block_cache.go:638-646 | removing the subtrees of the children one by one and then the node removes exactly its subtree |
| Finality.ValidWitnessExact | core/blockcache/block_cache.go:168-196 | the list of a live node is exactly the set of producers after the root up to it that every active list on the way admits |
| Finality.ValidWitnessIsProducers | core/blockcache/block_cache.go:168-196 | it lists only producers of blocks strictly after the root up to the node, and all of them if no active list was switched on the way |
| Finality.AdvanceHasQuorum | core/blockcache/block_cache.go:415-455 | when the root may move, at least floor(2N/3)+1 distinct members of its pending list each own a block from the new root up to the triggering node |
| Finality.QuorumsIntersect | core/blockcache/block_cache.go:415-433 | two such quorums of one list of N producers share more than N/3 of them |
| Finality.ConfirmLimitExact | core/blockcache/block_cache.go:416 | the limit is the least number that is more than two thirds of N |
| Finality.CanAdvanceExact | core/blockcache/block_cache.go:415-455 | the root may move exactly if more than two thirds of N distinct producers, counted by the reference recursion, confirm the node and its active list is the root's pending list |
| Finality.ConflictNeedsAThird | core/blockcache/block_cache.go:415-455 | if two caches with the same pending list both move their root, more than N/3 of its producers built on both branches |
| TreeFacts.FinalBlockHasQuorum | core/blockcache/block_cache.go:415-455 | every block that became irreversible during any run did so at a step at which a quorum of the old root's pending list had built on it |
| Forks.ForkNeedsAThird | core/blockcache/block_cache.go:415-455 | two runs from one state, with deterministic execution of vote blocks, whose irreversible chains agree up to k and differ there: more than N/3 of the producers who were to confirm block k made blocks on both sides |
| Forks.StepCounts | core/blockcache/block_cache.go:497-515 | in every step the pending list of each live block stays the one that the vote blocks up to it elected |
| Forks.InitialCounted | core/blockcache/block_cache.go:276-332 | which is so in a new cache |
| RootWitnesses.RunRecords | core/blockcache/block_cache.go:526-531 | in every state of every run linkedRootWitness lists each producer once, and exactly the producers of the irreversible blocks since the elected list last changed, read off the chain and the votes |
| RootWitnesses.StepRecords | core/blockcache/block_cache.go:526-531 | each step keeps that |
| RootWitnesses.InitialRecorded | core/blockcache/block_cache.go:276-332 | which is so in a new cache |
| RootWitnesses.SwitchDueExact | core/blockcache/block_cache.go:415-475 | the active list is switched exactly if it differs from the root's pending list, somebody confirms the node, and more than two thirds of N have confirmed it or made an irreversible block since that list was elected |
| RootWitnesses.SwitchHasBackers | core/blockcache/block_cache.go:415-494 | so when it is switched, a quorum of distinct producers each own a block since the pending list changed, wherever the root moved before |
| Incumbents.ScheduledByFinalVote | core/blockcache/block_cache.go:477-515 | in every state of every run each live block above the root was made by the producer whose turn it was in a list that an irreversible block elected |
| Incumbents.RunInOffice | core/blockcache/block_cache.go:477-515 | every active list on any run is one that an irreversible block elected |
| Incumbents.InitialInOffice | core/blockcache/block_cache.go:276-332 | which is so in a new cache |
| TreeFacts.AdvanceConfirms | core/blockcache/block_cache.go:435-455 | a root move appends one block, a child of the old root, that such a quorum confirms |
| TreeFacts.CachedIsReachable | core/blockcache/block_cache.go:595-646 | every node in hash2node has a block and is reachable over children from the root or a virtual node |
| TreeFacts.ReachableIsCached | core/blockcache/block_cache.go:595-646 | every reachable node that has a block is in hash2node |
| TreeFacts.SlotQuota | chainbase/block.go:145-154 | blocks of one chain in one slot under one list have one producer, consecutive serial numbers, and are at most six |
| TreeFacts.SerialExact | chainbase/block.go:145-150 | the serial number is the distance from the first block of its producer in the slot |
| Blocks.TurnsExact | common/witness.go:16-21 | a slot lasts three seconds, and in any N slots in a row every place of a list of N has exactly one turn |
| TreeFacts.HeadIsHighest | core/blockcache/block_cache.go:511-514 | no live block is higher than the head, and none of its height is older |
| TreeFacts.Survivors | core/blockcache/block_cache.go:669-700 | after a root move a node is live exactly if it was live and descends from the new root; the head is not replaced |
| PrunedHead.HeadCanBePruned | core/blockcache/block_cache.go:669-700 | a run from a new cache with two producers and four blocks after which the head is not live |
| PrunedHead.Grows | core/blockcache/block_cache.go:595-620 | a block by the producer of a new slot arrives and is linked: its list, and the head by the rule of height and time |
| NumberIndex.LookupIsAncestor | core/blockcache/block_cache.go:787-807 | while the head is live, the repaired index holds the head's ancestor for every number from root to head |
| NumberIndex.RepairedClosed | core/blockcache/block_cache.go:793-800 | the repair, which stops at the first indexed node, makes the index closed under parents, whatever root moves and head switches happened before |
| NumberIndex.RepairKeepsInv | core/blockcache/block_cache.go:787-807 | the repair keeps the invariant even if the head has been pruned |
| NumberIndex.PrunedHeadEnds | core/blockcache/block_cache.go:793-800 | at a pruned head the repair indexes the head and ends |
| NumberIndex.AncestorNumber | core/blockcache/block_cache.go:787-807 | the reference walk reaches the ancestor with the wanted number |
| AdvanceFacts.AdvanceRound | core/blockcache/block_cache.go:448-454 | one round of the loop keeps what the loop relies on, including the list of blocks collected before it, and brings the root closer to the node |
| AdvanceFacts.GuardDecides | core/blockcache/block_cache.go:448-450 | the guard of the loop holds exactly if the root may move |
| AdvanceFacts.BranchIsAncestor | core/blockcache/block_cache.go:439-452 | the next root is the node's ancestor numbered one above the root |
| AdvanceFacts.UnlistedCounts | core/blockcache/block_cache.go:457-475 | the count of checkUpdateActive is a count of distinct producers |
| BlockCacheImpl.BlockCache.constructor | core/blockcache/block_cache.go:276-332 | the snapshot of a new cache is the initial one above the given chain, which satisfies the invariant |
| BlockCacheImpl.BlockCache.Add | core/blockcache/block_cache.go:595-620 | a known block changes nothing; another one is received below the node of its parent, by a run of adding steps |
| BlockCacheImpl.BlockCache.ExtendWitness | core/blockcache/block_cache.go:168-180 | the parent's list, and then the producer unless it is listed or unnamed |
| BlockCacheImpl.BlockCache.Link | core/blockcache/block_cache.go:497-515 | the whole new snapshot of a link: list, active and pending lists, leaves and head |
| BlockCacheImpl.BlockCache.Del | core/blockcache/block_cache.go:638-646 | the recursion removes exactly the subtree of the node from tree, map and leaves |
| BlockCacheImpl.BlockCache.RemoveValidWitness | core/blockcache/block_cache.go:182-196 | the recursion takes the producer's name from exactly the nodes not shielded by another block of that producer |
| BlockCacheImpl.BlockCache.DelSingle | core/blockcache/block_cache.go:648-667 | at every tenth root number the outdated orphans and the virtual nodes they leave empty are gone, and nothing else |
| BlockCacheImpl.BlockCache.UpdateLinkedRootWitness | core/blockcache/block_cache.go:526-531 | the new snapshot of the step that RootWitnesses.RunRecords is about: the list starts afresh if the pending list changes, and names the new root's producer once |
| BlockCacheImpl.BlockCache.UpdateLongest | core/blockcache/block_cache.go:690-699 | a head whose block is cached stays; otherwise no leaf beats the new head |
| BlockCacheImpl.BlockCache.LongestUnchanged | core/blockcache/block_cache.go:690-699 | in every reachable state that search changes nothing |
| BlockCacheImpl.BlockCache.UpdateLinkedRoot | core/blockcache/block_cache.go:669-700 | the whole new snapshot of a root move |
| BlockCacheImpl.BlockCache.AdvanceRoot | core/blockcache/block_cache.go:669-725 | a root move followed by the flush of the new root to the irreversible chain |
| BlockCacheImpl.BlockCache.UpdateActive | core/blockcache/block_cache.go:477-494 | the active list becomes the root's pending list and the confirmation list its intersection with it |
| BlockCacheImpl.BlockCache.CheckUpdateActive | core/blockcache/block_cache.go:457-475 | whether the confirmations of root and node together reach the limit |
| BlockCacheImpl.BlockCache.BlockList | core/blockcache/block_cache.go:439-446 | the ancestors of the node above the root, by number |
| BlockCacheImpl.BlockCache.Climb | core/blockcache/block_cache.go:448-454 | the loop terminates, makes only justified root moves, and stops when none is justified |
| BlockCacheImpl.BlockCache.MoveLib | core/blockcache/block_cache.go:435-455 | updateLib as a run of root moves that keeps the invariant |
| BlockCacheImpl.BlockCache.UpdateLib | core/blockcache/block_cache.go:415-433 | the root moves as far as the node confirms it, or not at all if too few do, and then the active list is switched exactly if that is due; the returned run makes these steps and no others |
| BlockCacheImpl.BlockCache.GetBlockByNumber | core/blockcache/block_cache.go:787-807 | while the head is live the answer is its ancestor; if it has been pruned, the head itself or what the index held; nothing outside root..head, always a block of that number, and the invariant is kept |
| Replay.WalkFinds | core/txpool/tx_pool.go:197-220 | the walk over the index finds a transaction of any block of the chain inside its window |
| Replay.WalkIsSound | core/txpool/tx_pool.go:197-220 | what the walk finds is in a block of the chain inside its window |
| Replay.PassingBlockIsNoReplay | chainbase/block.go:200-226 | expiry window, search window and increasing times together: a block that passes holds no ordinary transaction of its chain |
| Replay.CleanExtends | chainbase/block.go:200-226 | so a chain free of replays stays so |
| Replay.StartExact | core/txpool/tx_pool.go:136-148 | the index a start makes covers the window behind the last block exactly if no block of that window has left the window behind the clock |
| Replay.ReplayExact | core/txpool/tx_pool.go:136-148 | after a start the next block can repeat a transaction of the chain exactly if it has not expired and its block has left the window behind the clock |
| Replay.LateStartReplays | core/txpool/tx_pool.go:136-148 | a late start after which a block that repeats a transaction passes |
| TxPoolImpl.TxPool.InitBlockTx | core/txpool/tx_pool.go:136-148 | the loop indexes exactly the blocks after genesis that are not older than the window behind the clock |
| ChainRuns.NoReplayOnAnyRun | chainbase/block.go:141-236 | after any run of adding blocks, moving the root, pooling and clearing, on the whole chain that ends in any live block every ordinary transaction occurs at one position of one block |
| Expiry.NothingExpiresOnAnyRun | verifier/verifier.go:79-85 | after any run, on the chain that ends in any live block, every ordinary transaction of a block added since the start was in time for its block |
| Expiry.RunInTime | verifier/verifier.go:79-85 | which every state of every run keeps for all blocks it holds |
| ChainRuns.RunKeepsInv | chainbase/block.go:141-186 | the index of recent blocks holds every live block and the window behind the root in every state of every run |
| ChainRuns.EventKeepsInv | chainbase/block.go:141-186 | each event keeps that invariant |
| ChainRuns.ClearKeeps | core/txpool/tx_pool.go:230-238 | clearing never drops a block still inside the window of a live parent |
| ChainRuns.AncestryCovered | core/txpool/tx_pool.go:197-238 | the index covers the window behind every live block |
| ChainRuns.AncestryLinked | core/blockcache/block_cache.go:669-725 | the irreversible blocks and the path above them form one chain of consecutive blocks |
| ChainFacts.RunIsSound | chainbase/block.go:141-186 | every run also keeps producers for every live block and detached nodes free of waiting blocks, on which the recursion relies |
| ChainProgress.InitialIdle | core/blockcache/block_cache.go:276-332 | in a new cache nothing waits |
| ChainFacts.InitialSound | chainbase/block.go:141-186 | a fresh cache above a clean chain, with an index of the window behind its end, is a valid start |
| ChainBaseImpl.ChainBase.constructor | chainbase/chainbase.go:28-94 | a node that starts above a chain has the initial snapshot and the index of its recent blocks, and after a timely start satisfies every invariant |
| ChainBaseImpl.StartIsStanding | chainbase/chainbase.go:28-94 | cache, index and chain of a timely start are a valid start of every run |
| ChainSteps.BaseIsUnchecked | verifier/verifier.go:47-77 | a block that passes goes on doing so with any other base transaction that executes |
| ChainSteps.PassesExact | chainbase/block.go:188-236 | all conditions of a block in numbers: head, schedule, no transaction twice or in the window of 90 seconds, every ordinary one in time |
| Blocks.TimesExact | core/tx/tx.go:313-325 | for every well-timed transaction the two time checks, which may wrap, hold exactly if it has arrived, has not expired and is at most 90 seconds old |
| ChainSteps.VerifyBlockHead | consensus/cverifier/verifier.go:28-50 | a head passes exactly if it is not from the future, is a later child of its parent, and commits to its transactions and receipts |
| ChainBaseImpl.ChainBase.VerifyTxs | chainbase/block.go:200-226 | the loop accepts exactly blocks without duplicates whose transactions are new in the window and verify |
| ChainBaseImpl.ChainBase.VerifyTimes | verifier/verifier.go:79-85 | no error exactly if every ordinary transaction has arrived, has not expired and is at most 90 seconds old, deferred ones have arrived, and the block executes |
| ChainBaseImpl.ChainBase.VerifyBlock | chainbase/block.go:188-236 | no error exactly if the block passes all conditions against parent, schedule and index |
| ChainBaseImpl.ChainBase.ComputeSerial | chainbase/block.go:145-150 | the serial number within the slot of one producer |
| ChainBaseImpl.ChainBase.Reject | chainbase/block.go:158-163 | a block that fails leaves the cache with everything below it, and nothing else changes |
| ChainBaseImpl.ChainBase.AcceptBlock | chainbase/block.go:166-173 | the block is linked with the list voted on top of it, the root moves and the list is switched as UpdateLib says, the block is indexed, and the pool follows the cache's head and switches branches; one history that keeps all invariants |
| ChainBaseImpl.ChainBase.AddExistingBlock | chainbase/block.go:141-186 | no error exactly if the block is acceptable, which then is numbered and accepted as AcceptBlock says; a refused block leaves exactly the state described by Refuses; the recursion terminates, what it does is a run that keeps the invariants, and afterwards nothing waits that did not wait before |
| ChainBaseImpl.ChainBase.AddChildren | chainbase/block.go:180-184 | the loop over waiting children, in any order, while the recursion changes the tree: afterwards no child waits |
| ChainBaseImpl.ChainBase.Add | chainbase/block.go:115-139 | a run that keeps all invariants, among them that the pool follows the head and that no block with a linked parent waits unless it is over the limit of its slot; a duplicate is reported exactly if the hash is cached, a duplicate or malformed block changes nothing, and otherwise the block is received and waits, is accepted or is refused, each exactly when it should |
| ChainBaseImpl.ChainBase.LinkBlock | chainbase/block.go:166 | the block is linked with the pending list read from its state |
| ChainProgress.LinkOpens | chainbase/block.go:166-184 | linking a block lets only its children start to wait |
| ChainProgress.LibRunIsSteady | core/blockcache/block_cache.go:415-433 | no run of root moves and switches makes a block wait |
| ChainProgress.LinkedCalms | chainbase/block.go:166-184 | once the children have been dealt with, nothing waits that did not wait before the link |
| ChainProgress.ReceivedWaits | chainbase/block.go:128-132 | in an idle cache a received block is the only one that may wait |
| ChainSteps.PoolFollows | core/txpool/tx_pool.go:71-96 | the pool, which takes the higher of the new block and the cache's head, always ends at the head |
| ChainBaseImpl.ChainBase.Clear | core/txpool/tx_pool.go:230-238 | the clearing of the pool as an event of such a run |
| TxPoolImpl.TxPool.AddBlock | core/txpool/tx_pool.go:174-180 | an index that describes its blocks still does, holds the new block, and covers the longer chain wherever it covered the shorter one |
| TxPoolImpl.TxPool.ClearBlock | core/txpool/tx_pool.go:230-238 | exactly the blocks more than 90 seconds older than the root leave the index |
| TxPoolImpl.TxPool.ExistTxs | core/txpool/tx_pool.go:197-220 | the loop decides membership in the window behind the block |
| TxPoolImpl.TxPool.FindForkBCN | core/txpool/tx_pool.go:276-292 | terminates with the highest common ancestor of two heads, or with none exactly if there is none, even if a head has been pruned |
| ForkSwitch.Met | core/txpool/tx_pool.go:276-292 | where the two walks meet is the highest common ancestor |
| ForkSwitch.Climb | core/txpool/tx_pool.go:276-292 | stepping down from the higher side loses no common ancestor |
| ForkSwitch.BranchTxsHeld | core/txpool/tx_pool.go:294-320 | the walk along a branch meets every transaction of its blocks in the time window although it stops at the first old block |
| ForkSwitch.HeldBranchTxs | core/txpool/tx_pool.go:294-320 | and only those |
| TxPoolImpl.TxPool.ChangeByFork | core/txpool/tx_pool.go:294-320 | pending becomes (pending plus abandoned branch) minus adopted branch, within the window |
| TxPoolImpl.TxPool.ChangeByTimeout | core/txpool/tx_pool.go:322-358 | the same over the index when the heads have no common ancestor |
| ForkSwitch.IndexTxsFinds | core/txpool/tx_pool.go:322-358 | that walk meets every transaction of an indexed block of the chain inside the window |
| ForkSwitch.IndexTxsSound | core/txpool/tx_pool.go:322-358 | and no others |
| TxPoolImpl.TxPool.ChangeHead | core/txpool/tx_pool.go:261-274 | the pool's head moves and the pending transactions follow in the one or the other way |
| TxPoolImpl.TxPool.AddLinkedNode | core/txpool/tx_pool.go:71-96 | the block is indexed, and the pool follows the higher of it and the cache's head |
| SortedTxs.CompareTxIsBefore | core/txpool/type.go:146-156 | on verified transactions compareTx is the intended order: gas ratio, then age, then hash |
| SortedTxs.CompareTxExact | core/txpool/type.go:146-156 | on all int64 fields it is so exactly if the difference it takes fits into int64 |
| SortedTxs.SmallestRatioIsMisplaced | core/txpool/type.go:146-156 | the smallest gas ratio compares as greater than a ratio of one |
| SortedTxs.BeforeTransitive | core/txpool/type.go:146-156 | the intended order is transitive |
| SortedTxs.PutSorted | core/txpool/type.go:175-180 | insertion by comparisons keeps the order and adds exactly the transaction |
| SortedTxs.RemoveSorted | core/txpool/type.go:183-193 | removal by comparisons keeps the order and removes exactly the transaction |
| SortedTxs.SortedTxMap.Get | core/txpool/type.go:168-172 | the transaction with the hash, if it is contained |
| SortedTxs.SortedTxMap.Add | core/txpool/type.go:175-180 | tree and map hold the same transactions, now with the new one |
| SortedTxs.SortedTxMap.Del | core/txpool/type.go:183-193 | tree and map hold the same transactions, now without that hash |
| WalFormat.FrameSizeInverse | db/wal/encoder.go:76-84 | the length field gives back size and padding, frames are multiples of 8 bytes, and only the empty record has a zero field |
| WalFormat.FrameSizeLayout | db/wal/encoder.go:76-84 | the top byte of the length field is 0x80 plus the padding, or zero if there is none |
| WalFormat.FrameLayout | db/wal/encoder.go:49-74 | a frame is the length field from its low byte on, the record, and zeros |
| WalFormat.HeaderLayout | db/wal/wal.go:399-459 | a file starts with the checksum so far from its high byte on, and the metadata |
| WalRead.ReadAnySuffix | db/wal/wal.go:120-213 | for all entries, all cuts and any zero padding, reading any suffix of the segments returns the entries of that suffix in order, passes every checksum, and ends at the end of the last record |
| WalRead.ReadSegment | db/wal/decoder.go:46-97 | a segment is read back from no checksum or from the one it continues |
| WalRead.DecodeFrameReads | db/wal/decoder.go:46-97 | a frame at the front of a file is read back, and only it is consumed |
| WalRead.BoundaryChecks | db/wal/log.go:6-12 | the checksum record of a segment passes its check against the checksum before it |
| WalRead.ContinuesExact | db/wal/log.go:6-12 | a file is accepted from a checksum exactly if that is none, the one it continues, or the one of its first record |
| WalRead.AppendAfterRecovery | db/wal/wal.go:120-213 | after reading, checksum and offset are where the writer stopped: records appended there are read back with those before them |
| Wire.VarintInverse | vendor/google.golang.org/protobuf/encoding/protowire/wire.go:180-359 | every number below 2^64 is read back from its varint, whatever follows |
| Wire.VarintCut | vendor/google.golang.org/protobuf/encoding/protowire/wire.go:262-359 | a varint that ends in a zero after i bytes is read as the number modulo 128^i |
| WalProto.ProtoCodecIsValid | db/wal/log.proto:6-22 | with the fields, tags and omitted defaults of the two messages, every record that fits and every entry in it is decoded to what was encoded |
| WalProto.MarshalLayout | db/wal/log.proto:6-10 | the tags and the order of the fields of a record on the wire |
| WalProto.MarshalEntryLayout | db/wal/log.proto:18-22 | the same for an entry |
| WalCrash.CrashLosesOnlyTheEnd | db/wal/decoder.go:46-97 | however short the last file is cut, and whatever zero tail of the preallocated file follows the written sectors, all earlier entries and a prefix of its own are read back without an error, unless the zeros make another valid record of the torn one |
| WalCrash.DecodeTorn | db/wal/decoder.go:46-97 | a frame with a zero tail is decoded to a record exactly if the damaged payload parses and has the right checksum, and otherwise as an unexpected end |
| WalCrash.ReadTornSegment | db/wal/decoder.go:46-97 | a torn segment is read up to the torn record, with the running checksum that this leaves |
| WalCrash.AppendAfterCrash | db/wal/wal.go:120-213 | entries saved after recovery from a crash are read back exactly if the first of them has the checksum that the next reader computes |
| WalProto.TornRecordDecodes | vendor/google.golang.org/protobuf/internal/impl/decode.go:81-184 | for every record and every cut, what the encoding with zeros from the cut on decodes to: nothing, unless only the last byte of a nonzero checksum is missing, or a zero checksum was not written and the last field written before it is cut so |
| WalCrash.ResumesExact | db/wal/wal.go:120-213 | with a checksum that never forgets where it started, appended entries are read exactly from the checksum they were written from |
| WalLoss.TornRecordExact | db/wal/decoder.go:76-93 | whether the decoder takes the torn record for another one, and whether it changes the running checksum, read off the record and the cut |
| WalLoss.MisreadExact | db/wal/decoder.go:76-93 | a torn segment is misread exactly if the checksum of the torn record is 0 and the cut leaves other data with checksum 0, or only a type |
| WalLoss.SpoilsExact | db/wal/decoder.go:84-93 | recovery continues with a wrong checksum exactly if only the last byte of a nonzero checksum is missing, or the checksum is 0 and the data is cut |
| WalLoss.ReadBackExact | db/wal/wal.go:120-213 | so after a crash everything but the end is read back, and entries saved then are read back exactly if the torn record has not spoilt the checksum |
| Crc64.UpdateInjective | db/wal/pcrc/pcrc.go:27-30 | after the same data different checksums are still different |
| Crc64.SealedSum | db/wal/pcrc/pcrc.go:27-30 | after any data there are eight bytes that give the largest checksum |
| WalTornEntry.NextEntryIsLost | db/wal/wal.go:120-213 | a first entry whose record reaches one byte into the second sector: torn there, it is not read back, and neither is any entry saved after recovery |
| WalDamage.DamageExact | db/wal/decoder.go:46-97 | with any payload in the place of any record: if it does not parse or has another checksum, reading fails exactly if another file follows or no sector of it is all zero, and otherwise ends before it; a boundary record with another checksum, other metadata, an undecodable entry and an unknown type always fail; anything else is read as what it is |
| WalDamage.ReadFrame | db/wal/decoder.go:46-97 | the same from any state of the reader |
| WalDamage.CutFileExact | db/wal/wal.go:120-213 | a closed file cut through a record ends the reading without an error; cut between records, reading fails exactly if the next file does not continue the checksum |
| WalDamage.LaterFilesAreDropped | db/wal/wal.go:120-213 | a log whose first file has one byte left is read as empty |
| Crc64.CheckValue | db/wal/wal.go:33 | the sum of the nine digits is the published check value of this polynomial |
| WalCrash.ZeroSectorExact | db/wal/decoder.go:110-147 | the split at sector boundaries finds an all-zero piece exactly if some sector of the file has one |
| WalImpl.Encoder.Encode | db/wal/encoder.go:49-74 | the frame is accepted by the writer and the checksum runs over the data |
| WalImpl.Decoder.IsTornWrite | db/wal/decoder.go:110-147 | the loops decide whether the last file has a zero sector in the data |
| WalImpl.Decoder.DecodeRecord | db/wal/decoder.go:46-97 | one record, with all error cases and the move to the next file, as the function Decode, of which WalDamage.ReadFrame says what every payload gives |
| WalImpl.Decoder.ReadAll | db/wal/wal.go:120-213 | the loop returns metadata and entries, or fails, as the function ReadLogs, about which ReadAnySuffix, CrashLosesOnlyTheEnd and DamageExact are |
| WalImpl.WAL.constructor | db/wal/wal.go:66-115 | a new log starts a segment with checksum and metadata |
| WalImpl.WAL.SaveEntry | db/wal/wal.go:553-567 | the entry gets the next index and joins the entries of the open segment |
| WalImpl.WAL.Cut | db/wal/wal.go:399-459 | the segment is closed with everything written to it and a new one continues its checksum; no entry is lost |
| WalImpl.WAL.SaveSingle | db/wal/wal.go:216-237 | one entry gets the next index and is saved, no entry is left in the buffer, and a file is closed exactly if it has reached eight million bytes |
| WalImpl.WAL.Save | db/wal/wal.go:570-593 | the entries are saved in order with consecutive indices, and a file is closed exactly if eight million bytes of it had been written |
| WalImpl.WAL.Readable | db/wal/wal.go:120-213 | in every reachable state of the log, reading any suffix of its files returns the entries saved in them |
| PageWriterImpl.PageWriter.constructor | db/wal/page_writer.go:29-37 | an empty buffer at the given page offset |
| PageWriterImpl.PageWriter.Write | db/wal/page_writer.go:39-82 | written plus buffered bytes are everything accepted, the buffer is never exceeded, the file grows only to page boundaries, and the recursion is at most one deep |
| PageWriterImpl.PageWriter.Flush | db/wal/page_writer.go:85-93 | everything accepted is written and the page offset stays in step with the file |
| FixedNum.MultiplyOverflowExact | common/fixed_num.go:39-45 | overflow is reported exactly if the product leaves int64, except for -1 times the smallest number |
| FixedNum.ScaleUpExact | common/fixed_num.go:75-81 | repeated multiplication by ten gives the product with the power of ten, or an overflow exactly if that does not fit |
| FixedNum.ScaleDownExact | common/fixed_num.go:82-85 | repeated truncation is one truncation |
| FixedNum.ChangeDecimalByLoops | common/fixed_num.go:72-87 | the loops compute ChangeDecimal |
| FixedNum.ChangeDecimalExact | common/fixed_num.go:72-87 | rescaling is exact or reports an overflow; towards fewer decimals it truncates once |
| FixedNum.ChangeDecimalKeeps | common/fixed_num.go:72-87 | the number is unchanged exactly if no digit other than zero is cut off |
| FixedNum.FewerDecimalsLose | common/fixed_num.go:72-87 | a number that changes when it gets fewer decimals |
| FixedNum.EqualsExact | common/fixed_num.go:117-124 | Equals is equality of the rational numbers, also where rescaling overflows |
| FixedNum.LessThanExact | common/fixed_num.go:192-223 | LessThan is the order of the rational numbers for all values and decimals, on every overflow path |
| FixedNum.LessThanIsWeakOrder | common/fixed_num.go:192-223 | so it is a strict weak order whose equivalence is Equals |
| FixedNum.ShrinkDecimal | common/fixed_num.go:90-98 | the loop computes the canonical form |
| FixedNum.ShrunkIsSame | common/fixed_num.go:90-98 | the canonical form is the same number |
| FixedNum.CanonicalIsUnique | common/fixed_num.go:90-98 | two numbers are the same exactly if their canonical forms are |
| FixedNum.NegExact | common/fixed_num.go:63-69 | negation fails exactly on the smallest number |
| FixedNum.AddExact | common/fixed_num.go:127-141 | a returned sum is right exactly if the summands are not both the smallest number; otherwise failure means overflow |
| FixedNum.SmallestTwiceIsZero | common/fixed_num.go:127-141 | the smallest number added to itself gives zero |
| FixedNum.MultiplyExact | common/fixed_num.go:154-162 | a returned product is right exactly if it is not -1 times the smallest number; otherwise failure means overflow |
| FixedNum.MinusOneTimesSmallestIsWrong | common/fixed_num.go:154-162 | -1 times the smallest number gives a wrong product |
| FixedText.ParsePositiveFixed | common/fixed_num.go:247-279 | the loop parses as the recursive scan does, which FixedParse.ParseExact characterises |
| FixedParse.ParseExact | common/fixed_num.go:247-279 | what every string means for every number of decimals: digits, a dot and decimals give the number with the wanted decimals, cut or filled up; a second dot, another character and an overflow are reported exactly where the digits that are read first end or exceed int64 |
| FixedParse.NewFixedExact | common/fixed_num.go:231-244 | any number of minus signs in front is read, and an odd number gives the negative of what follows; nothing, or a dot, after them is refused |
| FixedParse.DroppedDecimal | common/fixed_num.go:260-264 | with no decimals wanted, one is still read and may overflow |
| FixedParse.TruncatedOverflows | common/fixed_num.go:260-264 | 10^18 followed by ".0" is refused |
| FixedText.PrintWithDecimal | common/fixed_num.go:282-305 | the loops print the digits with the dot in its place |
| FixedText.Print | common/fixed_num.go:308-323 | the loops trim zeros and dot |
| FixedText.DigitsNumber | common/fixed_num.go:291-296 | the digits denote the number |
| FixedText.PositiveRoundTrip | common/fixed_num.go:231-323 | parsing undoes printing of every number that is not negative |
| FixedText.RoundTripExact | common/fixed_num.go:231-323 | for every int64 value and decimals, parsing undoes printing exactly if the value is not the smallest and its whole part loses no zeros |
| FixedText.MinusHundredLosesZeros | common/fixed_num.go:231-323 | -100.0 does not survive |
| MerkleTreeImpl.MerkleTree.Build | core/merkletree/merkle_tree.go:12-43 | the flat array holds the leaves, the hash of every pair of children, and at slot 0 the recursive pair-and-duplicate-last root |
| MerkleTreeImpl.MerkleTree.BuildLevel | core/merkletree/merkle_tree.go:25-32 | one round of index arithmetic fills exactly the slots of the level above |
| MerkleTreeImpl.MerkleTree.MerklePath | core/merkletree/merkle_tree.go:51-70 | the two errors exactly when they are due, an access past the end exactly if the tree was built again over no data and had more than one leaf, and otherwise a path of length log2(LeafNum) whose fold by child side gives the root |
| MerkleTreeImpl.RebuiltOverNothing | core/merkletree/merkle_tree.go:51-70 | a tree over two leaves that is built again over no data, and a path that is out of range |
| MerkleTreeImpl.MerkleTree.Siblings | core/merkletree/merkle_tree.go:59-69 | the climb from a leaf collects the siblings up to the root |
| MerkleTreeImpl.MerkleTree.RootHash | core/merkletree/merkle_tree.go:46-48 | after Build the result is the recursive root of the data, and nothing for no data |
| MerkleTreeImpl.RoundStep | core/merkletree/merkle_tree.go:24-38 | each round leads to the next level or ends with the root at slot 0 |
| MerkleTreeImpl.ClimbSlot | core/merkletree/merkle_tree.go:60-68 | the parent of a filled slot is its hash with the sibling the index arithmetic finds, or with itself |
| MerkleSpec.RootCommits | core/merkletree/merkle_tree.go:12-43 | with a perfect hash, lists without duplicates have the same root exactly if they are the same list |
| MerkleSpec.DuplicatesCollide | core/merkletree/merkle_tree.go:12-43 | with duplicates they need not be |
| Encoding.ToBytesUnique | core/tx/tx.go:352-395 | the bytes of a transaction at a level determine the covered fields, and even the level |
| Encoding.ToBytesReads | core/tx/tx.go:352-395 | a reader that knows the order and widths of the fields gets back every covered field |
| Encoding.HeadLayout | core/tx/tx.go:352-365 | the position and byte order of the six numbers at the front |
| Encoding.SummaryUnique | core/tx/tx.go:352-395 | transactions are equal in a block exactly if all their fields are |
| SimpleEncoderImpl.TxToBytes | core/tx/tx.go:352-395 | the encoder calls produce those bytes |
| SimpleEncoderImpl.BubbleSort | common/serialize.go:66-72 | the in-place sort yields the keys in order, each as often as before |
| SimpleEncoderImpl.ListIsUnique | common/serialize.go:61-78 | there is one ordered list of a set of keys |
| SimpleEncoderImpl.MapBytesUnique | common/serialize.go:61-78 | so the bytes of a map do not depend on the order of iteration |
| SimpleEncoderImpl.MapReads | common/serialize.go:61-78 | and they give back the map: count, then each key and its value |
| SimpleEncoderImpl.SimpleEncoder.WriteMap | common/serialize.go:61-78 | those bytes are appended to the buffer |
| SimpleEncoderImpl.SimpleEncoder.WriteBytesSlice | common/serialize.go:45-50 | the count and the length-prefixed elements are appended |
| Gas.Isolator.PrepareTx | vm/isolator.go:65-95 | the bytes are paid for, and the transaction is prepared exactly if its gas is in range and some of the limit is left |
| Gas.Isolator.Run | vm/isolator.go:169-275 | the outcome and the bill of plain, delayed and deferred transactions as the function Outcome, which Gas.OutcomeExact puts into numbers, with the cases in which the node stops or the transaction is refused |
| Gas.Isolator.RunActions | vm/isolator.go:219-265 | the loop bills as the function Spend, of which Gas.SpendExact is the closed form; gas paid and gas left keep their sum throughout |
| Gas.SpendExact | vm/isolator.go:219-265 | the bill is the sum of the costs of the actions before the first that fails or exceeds what is left, plus what that one is charged, and the status is that of this action |
| Gas.OutcomeExact | vm/isolator.go:169-275 | the outcome in numbers: ten units a byte, 300 for a delayed transaction and 600 for a deferred one, then that sum |
| Gas.OverdrawnExact | vm/isolator.go:278-281 | PayCost stops the node for no plain transaction, and for a deferred or delayed one exactly if less gas is left than its record costs |
| Gas.DeferredOverdraws | vm/isolator.go:278-281 | every deferred transaction that ends for lack of gas or time stops the node |
| Gas.DeferredCanBeFatal | vm/isolator.go:278-281 | such a transaction |
| Gas.PreparedLeavesGas | vm/isolator.go:169-174 | a prepared transaction leaves Run a budget exactly if one whole unit of gas fits into the rest of its limit |
| Gas.PreparedCanBeFatal | vm/isolator.go:169-174 | a transaction that is prepared and has no budget left |
| Gas.Consider | verifier/executor.go:114-190 | one round of the loop takes, skips, stops or ends the node exactly as Judge says |
| Gas.TakenVerifies | verifier/executor.go:127-190 | what is taken verifies and stays within the rest of the block |
| Gas.JudgeExact | verifier/executor.go:114-190 | when a candidate is taken, ends the block or ends the node, read off the outcome of its run |
| Gas.EligibleExact | verifier/executor.go:114-160 | which candidates are tried, in numbers |
| Gas.VerifiesExact | verifier/verifier.go:79-118 | which transactions verify, in numbers |
| Gas.VerifiedIsInTime | verifier/verifier.go:79-85 | an ordinary transaction verifies only in a block that it is in time for |
| Gas.FilledIsAccepted | verifier/executor.go:107-197 | the entries made of any candidates are within the gas of the block, and all verify |
| Gas.FilledIsMaximal | verifier/executor.go:107-197 | no candidate that still fits at the end and is not refused is left out, unless one ended the filling early |
| Gas.BaseGen | verifier/executor.go:107-197 | the loop builds exactly those entries, or the node ends; whatever the pool offers, they pass the gas, arrival and expiry checks of baseVerify, and ordinary transactions are in time |
| Gas.ExitNeedsKiller | verifier/executor.go:107-197 | the node ends only at a candidate that leaves no budget or is billed above its limit |
| Gas.BaseVerify | verifier/verifier.go:162-184 | the loop accepts exactly blocks within the gas bound whose transactions all verify, and stops the node exactly at the first transaction that does, after good ones |
| Gas.Verify | verifier/verifier.go:79-118 | accepts exactly transactions that have arrived, are not expired, and whose execution gives the gas usage of the receipt; tells rejection from the end of the node |
| Spv.LaterEpochs | tools/spv/verifier.go:90-108 | the accepted blocks are a whole number of epochs after the first, and their lists are complete |
| Spv.VerifiersAgree | tools/spv/verifier.go:90-108 | two verifiers with the same start agree on every epoch both recorded, if receipts match heads and fewer than seven members of each list built on two heads of one number |
| Spv.ConfirmedOnce | tools/spv/verifier.go:37-88 | under such a list no two different heads of one number are confirmed |
| Spv.AnyListIsAccepted | tools/spv/verifier.go:90-108 | with the confirmations of one block every list of seventeen is accepted, since the receipts are not compared with the head |
| Spv.RecordableExact | tools/spv/verifier.go:90-108 | the lists that updateEpoch may record for a confirmed head are exactly the complete ones that some receipts carry; if receipts were compared with the head, exactly the one it commits to |
| Spv.AcceptsExact | tools/spv/verifier.go:37-108 | the whole condition in numbers: an epoch of 1200 blocks, seventeen producers, twelve of them in a signed, linked, consecutive chain |
| Spv.WitnessStatus | core/blockcache/witness.go:92-108 | the loops read the receipts in order into one list until one can be read, and keep what a failed reading leaves |
| Spv.PendingExact | core/blockcache/witness.go:92-108 | the list is what the first readable receipt of the vote contract leaves, after what the unreadable ones before it left |
| Spv.ConfirmationsOverlap | tools/spv/verifier.go:37-88 | two blocks confirmed by one list share at least seven confirming members |
| Spv.Verifier.Init | tools/spv/verifier.go:19-35 | the first list is recorded exactly if the block starts an epoch and lists all producers |
| Spv.Verifier.CountMakers | tools/spv/verifier.go:58-82 | no error exactly if the blocks are a hash-linked chain on the block, and the count is one of distinct listed producers |
| Spv.Verifier.CheckWitness | tools/spv/verifier.go:37-88 | success exactly if at least twelve distinct members of the epoch's list built on the block, in signed, linked, consecutive blocks |
| Spv.Verifier.EpochExact | tools/spv/verifier.go:47-53 | the list is that of the last multiple of 1200 before the block |
| Spv.Verifier.UpdateEpoch | tools/spv/verifier.go:90-108 | a list is recorded exactly if the list before it confirms its block, it is the list in the receipts, and every recorded list comes from the log of the blocks and confirmations that were accepted |

## Left out

- ChainBase: blocks whose state is already committed are linked without verification by the source, and in SPV mode execution and time checks are skipped; the model verifies every block.
- ChainBaseImpl.ChainBase.Add: assumes `ChainSteps.Regular`, since with a base transaction that compareTx cannot order the tree of pending transactions is no search tree, and with an empty list the schedule divides by zero.
- ChainBase: deferred transactions are exempt from expiry, so the replay theorem is about ordinary ones; whether a fork rule forbids delayed transactions is an input.
- TxPool: AddTx, verifyDuplicate and clearTimeoutTx, which only filter single transactions.
- SortedTxMap: the red-black tree is an ordered sequence that is searched by comparisons; balancing is not modelled.
- BlockCache: recovery from the write-ahead log and AddGenesis; the log entries written on the way are left to the model of the log.
- BlockCache: block numbers are unbounded integers, and the number of producers stays that of the first pending list, as in the source.
- WAL: file names, renaming, locking, removal of old files and index values after recovery.
- WalCrash.CrashLosesOnlyTheEnd: says nothing about what is read after a torn record that zeros turn into another one with a valid checksum; `WalLoss.MisreadExact` says exactly when that is.
- PageWriter: sink errors, and the initial offset of a file that was not created by this writer.
- FixedNum: TimesF and ToFloat (floating point), Times and Div (one operation each), Marshal; the error field that Neg, Add and Multiply set is modelled as a missing result.
- MerkleTree: the logarithm of the leaf count is exact, without the rounding of floating point.
- Gas: costs are not negative and unbounded, and what the host charges for RAM is left out; of a receipt only the gas usage is compared.
- SimpleEncoder: lengths below 2^32; SimpleDecoder, of which the source only parses single fields.
- Spv: checkBlock, which only calls checkWitness.
- Networking, RPC, the virtual machine, contracts, the state database and consensus timing are not part of this model.
