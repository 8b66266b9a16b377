# RavenCash node: data structures and protocols, modelled and proved

This project models the parts of the RavenCash node that keep non-trivial state or
turn one representation into another, and proves what they promise on all inputs and
over all runs. `dafny verify dfyconfig.toml` checks the whole of it.

Most components come in two layers. A layer of values holds the state as a datatype, the
operations as functions, the invariant, and the lemmas about them. A layer of objects
holds the same fields as the node does, updated in place by methods with the node's own
loops and branches, and each method is proved to do what the function does.

| component | files |
|---|---|
| address manager | AddrManState, AddrManSteps, AddrManOps, AddrManRecords, AddrManLimits, AddrMan, AddrManDisk, AddrManLoading, AddrManRoundTrip, AddrManStream |
| coin caches | Coins, CoinsCache |
| block assembler | BlockAssembly, BlockAssembler, Sums |
| script check queue | CheckQueue |
| partial merkle trees | MerkleTree, MerkleProofs, MerkleRoots, MerkleSizes, PartialMerkle, Bits |
| big integers and targets | Powers, Limbs, LimbShifts, BaseUint, Compact |
| database transactions | DbTransaction, DbIterator |
| cuckoo cache | Cuckoo, CuckooLife, CuckooCache |
| block index and chain | Chain, SkipWalk |
| rolling bloom filter | RollingBloom, RollingBloomAnswers, RollingBloomFilter |
| compact blocks | CompactBlocks, CompactSender, PartialBlock |
| base 58 | Exponents, Base58, Base58Coding, Base58Buffers |
| verifier strings | BoolExpr, BoolFormula, BoolReading |
| shared | Options, Scaling |

## How the model reads the code

- Hash functions, the mempool's ancestry, the checks of scripts and blocks, and the depth
  limit and hash counts computed in floating point are parameters; no property depends on
  which they are beyond what its contract asks for.
- What a partial merkle tree proves holds unless two pairs of nodes with the same hash are at
  hand, and these are given. Reading back a tree one has written asks the hash to be injective.
- In the address manager `Sound` says that indexes, tables and counts agree; `Consistent` adds
  the times of the entries and the key, and is all that `Check_` demands, but for one point:
  `Check_` looks a service up in mapAddr as it is, and the model under the key, without the
  port unless ports are told apart, that Find, Create and Delete use.
- Clock times are parameters; an address keeps its services as a set of bits, its IP as a
  number and its hashes as bucket functions of the configuration.
- Randomness and scores are parameters or free choices: the order of the mempool walk,
  which modified entry is best, the minimum fee rate, the bucket a search starts from,
  whether a hash bucket is crowded. What is proved holds for every choice.
- Integers are unbounded. Widths are written out where the code relies on them: limbs and
  carries, the 32-bit sigop parameter, the 16-bit slot positions, the 32- and 64-bit
  truncations of compact targets, the 32-bit product that gives the epoch of a cuckoo cache.
- The check queue is a state machine. A step is one critical section of one thread, one
  check carried out outside the lock, an addition by the master, or a wake-up, spurious
  ones included.

## Where code and documentation differ

The model follows the code.

- `Add_` reports a new address as added even when the slot it hashes to is not given up
  and nothing is stored (AddrManOps.AddUnknown, and AddrManOps.AddedNotStored for a case).
- Without telling ports apart, a saved address book read back keeps its consistency only
  if no stored service has a port (AddrManRoundTrip.ReloadedConsistent). What any other stream
  gives, damaged or not, is said by AddrManLoading.LoadedSound.
- `SpendCoin` returns true for a coin the cache remembers as spent (Coins.SpendCoinSpends,
  and Coins.SpendTwice for a case), and an `AddCoin` that throws has already deducted the
  memory of the old coin (CoinsCache.CoinsView.AddCoin).
- The comment promises at most 2N-1 flag bits for N hashes. Five transactions with only the
  last matched take more (MerkleSizes.BitBoundFails); MerkleSizes.BitBound says exactly when.
- The size promised for a serialized partial merkle tree can be exceeded by a few bytes;
  MerkleSizes.SizeBound says exactly when.
- The documentation of the evaluator says that nothing else is a formula. It also accepts
  formulas without outer parentheses, and text before the first name that no formula has
  (BoolFormula.LeadingOperator); BoolReading.ResolvesExactly says exactly what.
- The comment on cuckoo evictions says the first one takes the first place; it takes the
  second (Cuckoo.FirstEviction).
- `x *= x` on a big integer clears the operand before reading it and gives zero
  (BaseUint.BaseUint.MulAssign). The product operator works on a copy and is not affected.
- The offset in the search for the next slot is kept to 16 bits too. With short ids and 65536
  prefilled transactions the search goes round for ever (CompactBlocks.SearchEndsExactly).
- An id cut to the slot of a prefilled transaction takes its place and spoils mempool_count;
  CompactBlocks.CountExactly says when that cannot happen.
- Short ids are paired with slots through a 16-bit position, which is right exactly up to
  65536 transactions (CompactBlocks.PairingIsExactUpTo); the size limit admits more.
- A second modified record of a transaction that failed before starts from its full totals
  again, so its recorded size is too large (BlockAssembly.RecordIsExact, and
  BlockAssembly.RecordFails for a case).

## Model

| member | source | states |
|---|---|---|
| AddrManOps.Run | src/addrman.cpp:205-352 | from any consistent manager every sequence of Add_, Good_, Attempt_, Connected_, SetServices_ and the shuffle of GetAddr_ leaves a consistent one, as long as the times recorded in entries are ones that Check_ accepts |
| AddrManRecords.RunRecords | src/addrman.cpp:205-352 | after any run nLastGood is the time of the last Good_ of any address, known or not, and an entry there from the beginning holds the times of the last success and try of its address, the failures counted since that success, where an Attempt_ counts exactly if the last one counted is before the last Good_, and the time of the last counted |
| AddrManRecords.OneFailureCounted | src/addrman.cpp:332-352 | with no Good_ in between and a clock that does not go back at most one failure of an address is counted |
| AddrManRecords.GoodRecords | src/addrman.cpp:205-225 | Good_ sets nLastGood whether the address is known or not; of the entries only the one with the very service changes, in its times of success and try and its failures |
| AddrManRecords.AttemptRecords | src/addrman.cpp:332-352 | Attempt_ changes only the entry of the very service: its time of try, and where a failure counts the count and its time |
| AddrManRecords.ConnectedRecords | src/addrman.cpp:500-518 | Connected_ moves the time of the entry of the very service exactly when it is more than twenty minutes behind, and nothing else |
| AddrManRecords.SetServicesRecords | src/addrman.cpp:520-536 | SetServices_ sets the flags of the entry of the very service and nothing else |
| AddrManRecords.AddRecords | src/addrman.cpp:259-330 | Add_ of an address that is not routable changes nothing; a known one gains flags and takes the announced time exactly if its own is unset or far enough behind; a new one is recorded with the announced flags, source and penalised time under the next id; no other record changes |
| AddrManState.EmptyConsistent | src/addrman.h:462-483 | after Clear indexes, tables and counts agree, and all that Check_ demands holds exactly when the drawn key is not null |
| AddrMan.AddrMan.constructor | src/addrman.h:485-488 | a new manager is empty and valid |
| AddrManOps.FindFinds | src/addrman.cpp:68-84 | Find gives an id exactly when that id has an entry with the same service, ports left out where they are not told apart |
| AddrManSteps.CreateKeeps | src/addrman.cpp:86-101 | a created entry is the only one outside the tables and all else stays consistent |
| AddrManSteps.PlaceKeeps | src/addrman.cpp:319-322 | putting an entry in its new slot, in place of the holder, keeps the invariant |
| AddrManOps.CreateThenDelete | src/addrman.cpp:86-140 | deleting an entry just created gives the old state back but for the id counter |
| AddrManState.SwapRandomKeeps | src/addrman.cpp:103-121 | the random order stays the inverse of the recorded positions, and only the order changes |
| AddrManState.DeleteRemoves | src/addrman.cpp:123-140 | the entry, its index and its place in the random order go, and nothing else does |
| AddrManState.DeleteKeeps | src/addrman.cpp:123-140 | deleting an entry that no slot holds keeps the invariant |
| AddrManState.ClearNewKeeps | src/addrman.cpp:142-155 | clearing a slot keeps the invariant, deleting the entry when that was its last slot |
| AddrManState.ClearNewFrame | src/addrman.cpp:142-155 | the slot is empty, its holder lost one reference or is gone, every other entry is as it was |
| AddrManLimits.TriedSpread | src/addrman.h:147-148 | tried addresses of one group fall into at most eight buckets |
| AddrManLimits.NewSpread | src/addrman.h:150-151 | new addresses told by one group fall into at most 64 buckets |
| AddrManLimits.NewBucketByGroups | src/addrman.cpp:20-25 | the new bucket depends on nothing but the key and the groups of the address and of its source |
| AddrManLimits.AtMostEightBuckets | src/addrman.h:153-154 | an entry is in at most eight new buckets, as many as its reference count says |
| AddrManLimits.SlotsAreHashed | src/addrman.cpp:26-30 | the place in a bucket is hashed from key, bucket and address, apart for the two tables |
| AddrManLimits.AnotherSlot | src/addrman.cpp:283-301 | a known address gets another slot exactly on newer news, while new and in fewer than eight, and on one draw in 2^n with n slots |
| AddrManLimits.TerribleExactly | src/addrman.cpp:34-54 | when an entry may be dropped, in seconds and numbers of attempts |
| AddrManSteps.EvictKeeps | src/addrman.cpp:175-194 | moving a tried entry back to its new bucket keeps the invariant |
| AddrManSteps.MakeTriedKeeps | src/addrman.cpp:157-203 | moving an entry to the tried table keeps the invariant |
| AddrManSteps.MakeTriedRecords | src/addrman.cpp:157-203 | nothing recorded of any entry changes, no entry is added and no entry but this one becomes tried |
| AddrManOps.MakeTriedMoves | src/addrman.cpp:157-203 | the entry ends in its own tried slot with no reference left, otherwise unchanged |
| AddrManOps.MakeTriedFree | src/addrman.cpp:157-203 | with a free tried slot only this entry leaves the new table |
| AddrManOps.MakeTriedEvicts | src/addrman.cpp:175-203 | the evicted entry goes to its own new slot with one reference, whose holder gives way |
| AddrManOps.GoodKeeps | src/addrman.cpp:205-257 | at every time, positive or not, Good_ keeps all that Check_ demands exactly when the clock is past zero or the address is unknown: a tried entry needs a time of success |
| AddrManOps.GoodSound | src/addrman.cpp:205-257 | at every time indexes, tables and counts still agree |
| AddrManOps.GoodTries | src/addrman.cpp:205-257 | at every time a known address is in the tried table afterwards, with the time of success recorded |
| AddrManOps.AddKeeps | src/addrman.cpp:259-330 | Add_ keeps all that Check_ demands |
| AddrManOps.AddUnknown | src/addrman.cpp:274-330 | Add_ of an unknown address returns true; it is stored exactly when the holder of its slot gives way, and otherwise leaves no trace but the id counter |
| AddrManOps.AddedNotStored | src/addrman.cpp:274-330 | after one Add_ to an empty manager, an Add_ of another address that hashes to the same slot returns true and changes nothing but the id counter |
| AddrManOps.AddKnown | src/addrman.cpp:271-327 | Add_ of a known address returns false and adds at most one reference, exactly under the stated conditions |
| AddrManOps.AttemptKeeps | src/addrman.cpp:332-352 | Attempt_ keeps the invariant exactly when the clock is not negative or the address is unknown |
| AddrManOps.ConnectedKeeps | src/addrman.cpp:500-518 | Connected_ keeps all that Check_ demands |
| AddrManOps.SetServicesKeeps | src/addrman.cpp:520-536 | SetServices_ keeps all that Check_ demands |
| AddrManOps.ShuffleReorders | src/addrman.cpp:479-498 | the partial shuffle of GetAddr_ changes nothing but the random order |
| AddrManOps.ShuffleKeeps | src/addrman.cpp:479-498 | and keeps all that Check_ demands |
| AddrMan.AddrMan.Clear | src/addrman.h:462-483 | the state is the empty one |
| AddrMan.AddrMan.Find | src/addrman.cpp:68-84 | the id found is that of the specification |
| AddrMan.AddrMan.Create | src/addrman.cpp:86-101 | the new state is that of the specification |
| AddrMan.AddrMan.SwapRandom | src/addrman.cpp:103-121 | the new state is that of the specification |
| AddrMan.AddrMan.Delete | src/addrman.cpp:123-140 | called as its asserts demand, the new state is that of the specification |
| AddrMan.AddrMan.ClearNew | src/addrman.cpp:142-155 | the new state is that of the specification, the assert on the reference count holds |
| AddrMan.AddrMan.MakeTried | src/addrman.cpp:157-203 | the loops over buckets and the eviction give the specified state, the asserts hold |
| AddrMan.AddrMan.Good_ | src/addrman.cpp:205-257 | the new state is that of the specification whatever random bucket the search starts from |
| AddrMan.AddrMan.Add_ | src/addrman.cpp:259-330 | state and result are those of the specification |
| AddrMan.AddrMan.Attempt_ | src/addrman.cpp:332-352 | the new state is that of the specification |
| AddrMan.AddrMan.Connected_ | src/addrman.cpp:500-518 | the new state is that of the specification |
| AddrMan.AddrMan.SetServices_ | src/addrman.cpp:520-536 | the new state is that of the specification |
| AddrMan.AddrMan.GetAddr_ | src/addrman.cpp:479-498 | the addresses are the first not terrible ones of the shuffled order, as many as the limit allows |
| AddrMan.AddrMan.Add | src/addrman.h:517-529 | the specified state and result; indexes, tables and counts agree, and what Check_ demands is kept |
| AddrMan.AddrMan.Good | src/addrman.h:546-552 | at every time the specified state; what Check_ demands is kept exactly when the clock is past zero or the address is unknown |
| AddrMan.AddrMan.Attempt | src/addrman.h:555-561 | at every time the specified state; what Check_ demands is kept exactly when the clock is not negative or the address is unknown |
| AddrMan.AddrMan.GetAddr | src/addrman.h:579-589 | only the random order changes; what Check_ demands is kept |
| AddrMan.AddrMan.Connected | src/addrman.h:592-598 | the specified state; what Check_ demands is kept |
| AddrMan.AddrMan.SetServices | src/addrman.h:600-606 | the specified state; what Check_ demands is kept |
| AddrManRoundTrip.RoundTrip | src/addrman.h:307-460 | reading back what a consistent manager wrote succeeds and gives every entry, both tables and all reference counts, with ids renumbered |
| AddrManLimits.SavedHeader | src/addrman.h:307-320 | a saved address book begins with 1, 32, the key, the two counts and the number of buckets with bit 30 set |
| AddrManLimits.LostOnDisk | src/addrman.h:29-80 | an entry written and read again has lost when it was last tried and last counted, and nothing else it records |
| AddrManLimits.FlippedTwice | src/addrman.h:308-381 | flipping bit 30 when reading undoes the flip made when writing |
| AddrManRoundTrip.ReloadedConsistent | src/addrman.h:357-460 | the manager read back is as consistent as the one saved exactly when every stored service equals its own squashed form |
| AddrManRoundTrip.ReloadFails | src/addrman.h:389-417 | one Add_ of a routable address with a port, ports not told apart, gives a consistent manager that is not consistent when read back |
| AddrManRoundTrip.DiscriminatingIsPortless | src/addrman.h:389-417 | that is so whenever ports are told apart |
| AddrManLoading.LoadedSound | src/addrman.h:357-460 | whatever stream is accepted: unless a count is negative, random order, tables, reference counts and counters agree; the index by address agrees too, and the manager is sound, exactly when no service read has a port that lookups drop and none that is kept is read twice; Check_ is met exactly when also the key is not null and the times of the kept entries are right |
| AddrManLoading.LoadNewKeeps | src/addrman.h:380-406 | any new entries read are numbered in order and indexed by service, and the tables hold exactly the slots their reference counts say |
| AddrManLoading.LoadTriedKeeps | src/addrman.h:408-427 | any tried entries read come after them, each in its own slot, the others lost |
| AddrManLoading.LoadTableKeeps | src/addrman.h:429-446 | any table of bucket indexes, also out of range, keeps reference counts equal to the slots held and at most eight |
| AddrManLoading.LoadIndexKeeps | src/addrman.h:435-442 | so does each single index |
| AddrManLoading.PruneRemoves | src/addrman.h:448-459 | exactly the entries in no table go, with their keys and their count |
| AddrManStream.Serialize | src/addrman.h:307-355 | the tokens written are those of the specification |
| AddrManStream.Unserialize | src/addrman.h:357-460 | success and state are those of the specification, on every stream |
| Coins.RunRefines | src/coins.h:150-184 | any allowed run on a stack of caches of any depth shows at every level the coins, and holds the best block, that the same run shows on plain maps, and its answers are the same; only a spending without a coin may succeed, and then moves out a spent one |
| Coins.StepRefines | src/coins.h:150-184 | the same for one operation |
| Coins.GetReads | src/coins.cpp:65-72 | reading shows the coin of the plain map and changes no level |
| Coins.FetchReads | src/coins.cpp:48-63 | fetching changes nothing shown at any level, and afterwards the cache holds the coin if it did or the base shows it |
| Coins.AddCoinAdds | src/coins.cpp:74-93 | adding a spendable coin changes exactly its outpoint, an unspendable one nothing |
| Coins.AddCoinPrecondition | src/coins.cpp:74-93 | without possible_overwrite, adding a spendable coin succeeds and keeps the flags sound exactly when no coin is shown at the outpoint |
| Coins.SpendCoinSpends | src/coins.cpp:355-381 | spending removes exactly the outpoint; the result is true also for a coin remembered as spent |
| Coins.SpendTwice | src/coins.cpp:355-381 | over a database with one coin, a second SpendCoin of it returns true although none is shown |
| Coins.SpentSeen | src/coins.cpp:355-381 | a spending moves out the coin shown; without one it fails, or succeeds with a spent coin that is remembered |
| Coins.UncacheKeeps | src/coins.cpp:477-484 | uncaching changes nothing shown and drops the entry exactly when it is not modified |
| Coins.MergeShows | src/coins.cpp:414-468 | merging a child cache gives what the child showed over us, and the FRESH flag misapplied error cannot happen |
| Coins.BatchWriteShows | src/txdb.cpp:88-124 | a batch written to a cache or to the database makes it show what the child showed and hold the best block given |
| Coins.FlushShows | src/coins.cpp:470-475 | flushing is invisible at the top and makes the base show the same coins and hold the same best block; nothing is cached afterwards |
| Coins.GetBestReads | src/coins.cpp:404-408 | GetBestBlock gives that of the first level that holds one and leaves it with all levels above |
| Coins.AddThenSpend | src/coins.cpp:74-93 | a coin added where the cache has no entry and spent again leaves the cache as it was |
| Coins.MergedThenSpent | src/coins.cpp:414-468 | nor is there a trace in the next cache if it was flushed there before it was spent |
| CoinsCache.CoinsView.FetchCoin | src/coins.cpp:48-63 | the linked caches and the result are those of the specification |
| CoinsCache.CoinsView.GetCoin | src/coins.cpp:65-72 | the linked caches and the result are those of the specification |
| CoinsCache.CoinsView.AddCoin | src/coins.cpp:74-93 | the linked caches and the result are those of the specification, a thrown error leaving only the usage deducted |
| CoinsCache.CoinsView.SpendCoin | src/coins.cpp:355-381 | the linked caches and the result are those of the specification |
| CoinsCache.CoinsView.HaveCoin | src/coins.cpp:394-397 | the linked caches and the result are those of the specification |
| CoinsCache.CoinsView.GetBestBlock | src/coins.cpp:404-408 | the linked caches and the result are those of the specification |
| CoinsCache.CoinsView.SetBestBlock | src/coins.cpp:410-412 | the linked caches and the result are those of the specification |
| CoinsCache.CoinsView.BatchWrite | src/coins.cpp:414-468 | the linked caches and the result are those of the specification |
| CoinsCache.CoinsView.Flush | src/coins.cpp:470-475 | the linked caches and the result are those of the specification |
| CoinsCache.CoinsView.Uncache | src/coins.cpp:477-484 | the linked caches and the result are those of the specification |
| CoinsCache.CoinsView.WriteToDatabase | src/txdb.cpp:88-124 | dirty coins are written, dirty spent ones erased |
| BlockAssembler.BlockAssembler.AddPackageTxs | src/miner.cpp:396-524 | the block stays ancestor-closed and in order, within weight and sigop limits, totals exact and all transactions fit for mining; the walk runs out, meets a package below the minimum fee, or gives up after more than 1000 too large packages in a row with the block within 4000 of its weight limit, and stops for no other reason; when it runs out every entry is in the block, refused, or failed again on a record made after a failure, which needs two ancestors in the block; it terminates |
| BlockAssembler.BlockAssembler.Walk | src/miner.cpp:417-523 | the loop itself, from records right for the block |
| BlockAssembler.BlockAssembler.Evaluate | src/miner.cpp:427-522 | one round keeps block, records and what was settled, and makes progress |
| BlockAssembler.BlockAssembler.CountFailures | src/miner.cpp:476-490 | the walk gives up exactly after more than 1000 packages too large in a row with the block within 4000 of its weight limit |
| BlockAssembler.BlockAssembler.TryPackage | src/miner.cpp:475-522 | a package is added whole, or the block stays and a failed modified entry is dropped |
| BlockAssembler.BlockAssembler.AddPackage | src/miner.cpp:503-522 | adding a package that passed keeps limits, order and records |
| BlockAssembler.BlockAssembler.constructor | src/miner.cpp:86-91 | the weight limit is the option within 4000 and the maximum less 4000, else the nearer bound; the empty block is valid |
| BlockAssembler.BlockAssembler.OnlyUnconfirmed | src/miner.cpp:272-283 | exactly the entries not in the block remain |
| BlockAssembler.BlockAssembler.TestPackage | src/miner.cpp:285-293 | true exactly when weight and sigops stay below their limits |
| BlockAssembler.BlockAssembler.TestPackageTransactions | src/miner.cpp:298-310 | true exactly when every transaction is final, allowed its witness and safe |
| BlockAssembler.BlockAssembler.AddToBlock | src/miner.cpp:312-331 | one more transaction after its ancestors; totals and lists follow |
| BlockAssembler.BlockAssembler.UpdatePackagesForAdded | src/miner.cpp:333-358 | every descendant outside the block has a record, its old one or its full totals, less exactly its ancestors just added; no other record changes |
| BlockAssembler.BlockAssembler.SortForBlock | src/miner.cpp:375-384 | the package sorted by number of ancestors |
| BlockAssembly.UpdatedKeeps | src/miner.cpp:333-358 | after the update recorded sizes and sigops are at least those of the ancestors not in the block, equal unless the entry failed before, and then, where sizes are positive, the size is too large |
| BlockAssembly.RecordIsExact | src/miner.cpp:333-358 | so a recorded size is that of the ancestors not in the block exactly when the entry has not failed before |
| BlockAssembly.RecordFails | src/miner.cpp:333-358 | a chain of three: the last is recorded right when the first comes in, fails, and is recorded too large by the first when the second comes in |
| BlockAssembly.ThreeExist | src/miner.cpp:333-358 | there is such a pool, with positive sizes |
| BlockAssembly.TwiceKeeps | src/miner.cpp:333-358 | an entry recorded again after a failure has at least two ancestors in the block |
| BlockAssembly.FirstRecords | src/miner.cpp:333-358 | the records made for what is in the block at the start are right |
| BlockAssembly.PackageCloses | src/miner.cpp:490-496 | a block stays ancestor-closed with a package |
| BlockAssembly.StillRefused | src/miner.cpp:470-504 | a package refused at one time is refused later, unless an ancestor came in |
| BlockAssembler.BlockAssembler.TestEntry | src/miner.cpp:470-504 | an entry that passes gives its package within limits and fit for mining; one with exact totals that does not is refused for a reason |
| BlockAssembler.BlockAssembler.NextEntry | src/miner.cpp:427-463 | whichever entry is chosen, its totals cover its outstanding ancestors, exactly so for one of the pool |
| BlockAssembler.BlockAssembler.AddSorted | src/miner.cpp:510-517 | the sorted package is appended as it is and leaves the modified set |
| BlockAssembly.SortedAfterAncestors | src/miner.h:92-101 | in a package so sorted every transaction comes after all its ancestors |
| BlockAssembly.AncestorsCountLess | src/miner.h:92-101 | an ancestor has fewer ancestors |
| BlockAssembly.PackageWithin | src/miner.cpp:285-293 | a package adds no more weight and sigops than the totals TestPackage accepted |
| BlockAssembly.CachedIsOutstanding | src/miner.cpp:369-373 | an entry that is not skipped has no ancestor in the block, so its cached totals are exact |
| BlockAssembly.FailedKeeps | src/miner.cpp:475-491 | erasing a failed modified entry keeps the other records right |
| BlockAssembly.SettledKeeps | src/miner.cpp:333-358 | an entry settled before, refused or failed again, stays so or gains an ancestor in the block and is looked at again |
| CheckQueue.EveryRun | src/checkqueue.h:69-161 | in every state of every interleaving the counts are exact and each finished Wait returned whether all checks of its round pass |
| CheckQueue.StartHolds | src/checkqueue.h:134 | the invariant holds before any thread runs |
| CheckQueue.SectionVerdict | src/checkqueue.h:80-120 | a critical section that does not end Wait leaves open exactly what was open |
| CheckQueue.SectionCounted | src/checkqueue.h:80-120 | every critical section leaves nTodo, nTotal and nIdle exact |
| CheckQueue.StepKeeps | src/checkqueue.h:69-161 | every atomic step keeps that nTodo counts queued and unreported checks, and that what the round comes to is already decided by what is queued, held and recorded |
| CheckQueue.WaitReturns | src/checkqueue.h:90-99 | the result is whether every check of the round passes, and the next round starts clean |
| CheckQueue.BlockedMasterHasWorker | src/checkqueue.h:80-103 | a blocked master has a worker that holds an unreported batch |
| CheckQueue.Progress | src/checkqueue.h:69-127 | while the master waits some thread can go on without a spurious wake-up |
| CheckQueue.ThreadsGoOn | src/checkqueue.h:76-127 | a thread that is not blocked can always take its next step: nTodo covers its batch and nIdle counts it |
| CheckQueue.StepDecreases | src/checkqueue.h:69-127 | each such step brings the round nearer its end, until Wait returns |
| CheckQueue.Share | src/checkqueue.h:110 | a batch is at least one check, at most the queue, and at most the batch size unless that is zero |
| CheckQueue.ShareIsFair | src/checkqueue.h:110 | a batch is the largest number, up to the batch size, that leaves as much for every thread in or idle and one more, or one |
| CheckQueue.AddWakes | src/checkqueue.h:148-161 | several checks wake every worker that waits, a single one wakes one if any waits, and no other thread is touched |
| CheckQueue.SpuriousWakes | src/checkqueue.h:102 | a spurious wake-up changes the woken thread and nothing else |
| CheckQueue.FailureIdles | src/checkqueue.h:118-125 | checks taken after a recorded failure are not carried out |
| CheckQueue.FailedStaysFailed | src/checkqueue.h:121-125 | running one check moves its thread alone, and a thread that has failed stays failed |
| CheckQueue.BatchIsTop | src/checkqueue.h:112-117 | a batch turned round and what is left of the queue are the queue |
| CheckQueue.BatchPasses | src/checkqueue.h:112-117 | taking a batch off the queue splits the checks and loses none |
| CheckQueue.CheckQueue.Section | src/checkqueue.h:76-120 | the critical section gives the specified shared state, local state, notification and result |
| CheckQueue.CheckQueue.TakeBatch | src/checkqueue.h:112-117 | the last checks of the queue, last first |
| CheckQueue.CheckQueue.Add | src/checkqueue.h:148-161 | the checks join the queue in order; one or all workers are notified |
| CheckQueue.RunBatch | src/checkqueue.h:121-125 | the result is whether there was no failure before and none in the batch; checks are called up to the first failure and none after it |
| PartialMerkle.RoundTrip | src/merkleblock.cpp:93-196 | for distinct txids within the cap, building, packing, unpacking and extracting gives the root and exactly the matched txids with their positions in order |
| MerkleRoots.RootByLevels | src/consensus/merkle.cpp:13-27 | the root of a partial tree is that of hashing neighbours together level by level, the last one with itself where the number is odd |
| MerkleRoots.UnusedHashRefused | src/merkleblock.cpp:192-194 | a message with one hash more than is used is refused |
| MerkleRoots.UnusedByteRefused | src/merkleblock.cpp:188-191 | bits up to the end of the last byte are allowed, a byte more is refused |
| MerkleRoots.TwinsRefused | src/merkleblock.cpp:131-139 | a message in which two children of a node have the same hash is refused |
| MerkleRoots.AcceptedIsUsed | src/merkleblock.cpp:165-195 | an accepted message keeps all limits and is used up but for the rest of a byte |
| MerkleTree.ExtractBuilt | src/merkleblock.cpp:93-147 | reading a written node gives its hash and its matched leaves |
| MerkleTree.NodesDiffer | src/merkleblock.cpp:131-139 | with distinct txids no two nodes of a height have the same hash |
| MerkleProofs.ProofIsSound | src/merkleblock.cpp:111-196 | whatever bits and hashes were sent: with the root of a list every reported txid is in the list at the reported position, and positions increase, or two pairs of nodes with the same hash are given |
| MerkleProofs.ExtractSound | src/merkleblock.cpp:111-147 | the same for each node |
| MerkleSizes.BitBound | src/merkleblock.h:23-50 | bits exceed 2N-1 by at most the height, and exceed it exactly when some level has an odd number of nodes and the node above the odd one covers a match |
| MerkleSizes.BitBoundFails | src/merkleblock.h:47 | five transactions with the last matched take more than 2N-1 bits |
| MerkleSizes.HashBound | src/merkleblock.h:36-41 | N is at most the number of transactions, and at most one more than matches times height |
| MerkleSizes.SizeBound | src/merkleblock.h:31-48 | N counts the transactions and the highest nodes without a match; the serialized size keeps within 10 + ceil(32.25 * N) exactly when the nodes with a match under an only child, counted on the transactions and matches, are fewer than the bits the two counts leave |
| MerkleSizes.SizeFails | src/merkleblock.h:34 | 1012 transactions, all matched, take one byte more |
| MerkleSizes.LonelyCounts | src/merkleblock.cpp:93-109 | with the last transaction matched such nodes number the levels with an odd number of nodes |
| MerkleProofs.BitsWritten | src/merkleblock.cpp:93-109 | bits are 2N-1 plus the number of nodes with a match under an only child |
| MerkleProofs.HashesWritten | src/merkleblock.cpp:93-109 | one hash for each match and each highest node without one |
| MerkleSizes.AtMostOnePerLevel | src/merkleblock.cpp:93-109 | there is at most one such node on a level |
| MerkleTree.WidthMeans | src/merkleblock.h:66-69 | a position is within the width of its level exactly when its first leaf is a transaction |
| MerkleTree.Children | src/merkleblock.cpp:100-107 | the leaves of a node are those of its children; the right child is there exactly within the width |
| MerkleTree.TreeHeight | src/merkleblock.cpp:154-157 | the least height with one node, and all transactions fit under it |
| PartialMerkle.PackBits | src/merkleblock.h:100-104 | each bit in its byte, least significant first, and no others |
| PartialMerkle.UnpackBits | src/merkleblock.h:92-98 | the bits of the bytes in order |
| PartialMerkle.PackUnpack | src/merkleblock.h:86-105 | unpacking gives the bits back, padded to whole bytes |
| PartialMerkle.PartialMerkleTree.constructor | src/merkleblock.cpp:149-161 | bits and hashes are those of the specification |
| PartialMerkle.PartialMerkleTree.CalcHeight | src/merkleblock.cpp:154-157 | the loop finds the height of the tree |
| PartialMerkle.PartialMerkleTree.TraverseAndBuild | src/merkleblock.cpp:93-109 | what is appended is the specified part |
| PartialMerkle.PartialMerkleTree.TraverseAndExtract | src/merkleblock.cpp:111-147 | counters, failure, matches and hash are those of the specification |
| PartialMerkle.PartialMerkleTree.ExtractMatches | src/merkleblock.cpp:165-196 | the specified root and matches, or the zero hash |
| BaseUint.BaseUint.constructor | src/arith_uint256.h:34-38 | zero |
| BaseUint.BaseUint.Assign | src/arith_uint256.h:50-55 | the value of the other |
| BaseUint.BaseUint.AssignUint64 | src/arith_uint256.h:96-103 | the given value |
| BaseUint.BaseUint.Not | src/arith_uint256.h:77-83 | two to the width less one less the value |
| BaseUint.BaseUint.Neg | src/arith_uint256.h:85-92 | minus the value, modulo two to the width |
| BaseUint.BaseUint.Inc | src/arith_uint256.h:181-188 | one more, modulo two to the width |
| BaseUint.BaseUint.Dec | src/arith_uint256.h:198-205 | one less, modulo two to the width |
| BaseUint.BaseUint.AddAssign | src/arith_uint256.h:143-153 | the sum modulo two to the width, also when the operand is the object itself |
| BaseUint.BaseUint.SubAssign | src/arith_uint256.h:155-159 | the difference modulo two to the width |
| BaseUint.BaseUint.MulSmall | src/arith_uint256.cpp:58-67 | the product modulo two to the width; no 64-bit overflow |
| BaseUint.BaseUint.MulAssign | src/arith_uint256.cpp:70-83 | the product modulo two to the width; zero when the operand is the object itself |
| BaseUint.BaseUint.ShlAssign | src/arith_uint256.cpp:24-38 | the product with a power of two modulo two to the width, for every shift |
| BaseUint.BaseUint.ShrAssign | src/arith_uint256.cpp:41-55 | the quotient by a power of two, for every shift |
| BaseUint.BaseUint.DivAssign | src/arith_uint256.cpp:86-109 | the floor quotient, with num left as the remainder; division by zero fails and leaves zero |
| BaseUint.BaseUint.DivideStep | src/arith_uint256.cpp:99-106 | one bit of the quotient keeps quotient times divisor plus remainder |
| BaseUint.BaseUint.CompareTo | src/arith_uint256.cpp:112-121 | the order of the values |
| BaseUint.BaseUint.EqualTo | src/arith_uint256.cpp:124-135 | equality with a 64-bit value |
| BaseUint.BaseUint.Bits | src/arith_uint256.cpp:191-203 | the position of the highest bit plus one, or zero |
| BaseUint.BaseUint.GetLow64 | src/arith_uint256.h:262-266 | the value modulo two to the 64 |
| LimbShifts.ShiftLeftValue | src/arith_uint256.cpp:24-38 | limbs moved and split between neighbours multiply by a power of two |
| LimbShifts.ShiftRightValue | src/arith_uint256.cpp:41-55 | and the other way divide by it |
| Limbs.OrDisjoint | src/arith_uint256.cpp:24-55 | or-ing words with bits at different places adds them |
| BaseUint.NoOverflow | src/arith_uint256.cpp:58-83 | carry, limb and product fit 64 bits and the next carry 32 |
| Limbs.ValLess | src/arith_uint256.cpp:112-121 | the highest limb that differs decides the order |
| BaseUint.SetQuotientBit | src/arith_uint256.cpp:102 | setting a bit below all others adds its weight |
| Compact.OverflowExact | src/arith_uint256.cpp:237-242 | the overflow flag is set exactly when mantissa * 256^(exponent-3) is at least 2^256 |
| Compact.MeaningIs | src/arith_uint256.cpp:225-243 | a compact form stands for word * 256^(exponent-3) rounded down, negative exactly when that is not zero and the sign is set |
| Compact.FieldsOf | src/arith_uint256.cpp:225-231 | its fields are a byte, a bit and 23 bits |
| Compact.DecodeEncode | src/arith_uint256.cpp:225-266 | decoding an encoded number gives it back with only its low bytes cleared, not overflowing, negative as asked unless zero |
| Compact.EncodeIsFixedPoint | src/arith_uint256.cpp:225-266 | the form of an encoded number, decoded, encodes to itself again |
| Compact.KeptFits | src/arith_uint256.cpp:255-262 | the mantissa kept has no sign bit, and is zero only for zero |
| Compact.NotAllOnes | src/chain.cpp:128-132 | no decoded target is 2^256 - 1, so target + 1 does not wrap |
| Compact.SetCompact | src/arith_uint256.cpp:225-243 | value and flags are those of the specification |
| Compact.GetCompact | src/arith_uint256.cpp:245-266 | the specified form; both asserts hold |
| Compact.WorkOfTarget | src/chain.cpp:128-132 | the computed work is 2^256 / (target + 1) rounded down |
| Compact.GetBlockProof | src/chain.cpp:120-133 | zero for a negative, overflowing or zero target, otherwise 2^256 / (target + 1) rounded down |
| DbTransaction.Transaction.Write | src/dbwrapper.h:614-627 | the view gains the value; writes and deletes stay disjoint and the memory count exact |
| DbTransaction.Transaction.Erase | src/dbwrapper.h:675-684 | the view loses the key; likewise |
| DbTransaction.Transaction.Read | src/dbwrapper.h:635-651 | the value the view has |
| DbTransaction.Transaction.Exists | src/dbwrapper.h:658-668 | whether the view has the key |
| DbTransaction.Transaction.Clear | src/dbwrapper.h:686-690 | nothing is held |
| DbTransaction.Transaction.Commit | src/dbwrapper.h:692-700 | the target loses the deletes and gains the writes, and is exactly the view when it is the parent; nothing is held afterwards |
| DbTransaction.Transaction.constructor | src/dbwrapper.h:606 | a new transaction shows its parent |
| DbTransaction.UsageWrite | src/dbwrapper.h:614-627 | how the bytes held change with a write |
| DbTransaction.UsageDelete | src/dbwrapper.h:675-684 | how they change with an erasure |
| DbIterator.TransactionIterator.Seek | src/dbwrapper.h:438-443 | what is left to show is exactly the keys of the view not below the given one |
| DbIterator.TransactionIterator.GetKey | src/dbwrapper.h:491-500 | the least key left to show |
| DbIterator.TransactionIterator.Next | src/dbwrapper.h:449-462 | exactly the current key is passed |
| DbIterator.TransactionIterator.SkipDeletedAndOverwritten | src/dbwrapper.h:526-534 | stops at a parent key to show; nothing to show is passed |
| DbIterator.TransactionIterator.DecideCur | src/dbwrapper.h:536-548 | the smaller key becomes current |
| DbIterator.TransactionIterator.Walk | src/dbwrapper.h:401-549 | a walk shows every key of the view from the given one on, once each, in byte order |
| DbIterator.CurrentIsLeast | src/dbwrapper.h:536-548 | the smaller of the two current keys is below every other key left |
| DbIterator.SeekShows | src/dbwrapper.h:438-443 | from the two lower bounds on, what is pending is the view from the key on |
| DbTransaction.LessTotal | src/dbwrapper.h:561-565 | byte order is total |
| DbTransaction.LessTransitive | src/dbwrapper.h:561-565 | byte order is transitive |
| Cuckoo.EveryRun | src/cuckoocache.h:289-477 | in every run of inserts and lookups live elements are found and the epoch keeps its bound |
| CuckooLife.InsertedIsFound | src/cuckoocache.h:289-477 | an element inserted and not lost then is found after every run that neither erases it nor loses it and ages the cache at most once |
| CuckooLife.FreeFromSecondAging | src/cuckoocache.h:289-321 | an element not inserted again may be overwritten from the second aging on |
| CuckooLife.EpochCheckFrees | src/cuckoocache.h:289-321 | the check frees exactly the live slots of the old epoch, exactly when the scan takes place and finds a full epoch, and demotes those of the current one; otherwise no slot changes |
| CuckooLife.ScansApart | src/cuckoocache.h:291-321 | scans are a whole epoch apart after aging, and otherwise as far as the epoch is from full but at least a sixteenth |
| CuckooLife.ContainsMarks | src/cuckoocache.h:467-477 | a lookup finds exactly what is in one of its places and changes nothing, but with erase it marks one copy found |
| CuckooLife.ErasedIsFound | src/cuckoocache.h:452-462 | an erased element is still found right after |
| CuckooLife.NextEviction | src/cuckoocache.h:424-433 | with eight different places the next in turn is taken, not the one just filled |
| CuckooLife.SetupShape | src/cuckoocache.h:340-353 | at least two slots, all free, and an epoch of 45 of 100 where that fits 32 bits |
| Cuckoo.Run | src/cuckoocache.h:289-477 | every run keeps the invariant |
| Cuckoo.InsertKeeps | src/cuckoocache.h:392-448 | an insertion keeps every live element in one of its places, and live recent slots plus the counter within epoch_size + max(1, epoch_size/16) |
| Cuckoo.InsertLosesAtMostOne | src/cuckoocache.h:392-448 | aging apart, an insertion adds its element to the live ones and loses at most one |
| Cuckoo.KickConserves | src/cuckoocache.h:408-447 | swaps conserve the live elements up to the one left without a place |
| Cuckoo.KickKeepsStored | src/cuckoocache.h:408-447 | swaps take the element in and exactly one out, the one overwritten or the one left without a place; every other is stored as often as before |
| Cuckoo.InsertKeepsStored | src/cuckoocache.h:392-448 | so does an insertion, aging included, where the one that goes may be the element itself |
| Cuckoo.KickRecent | src/cuckoocache.h:408-440 | swaps conserve the recent slots up to the one lost |
| Cuckoo.KickPlaced | src/cuckoocache.h:408-440 | every live element stays in one of its eight places |
| Cuckoo.EpochCheckBounds | src/cuckoocache.h:289-321 | before an insertion there is room for one more recent slot |
| Cuckoo.EpochCheckKeeps | src/cuckoocache.h:289-321 | aging leaves every element in its slot |
| Cuckoo.ContainsKeeps | src/cuckoocache.h:467-477 | lookups keep the invariant |
| Cuckoo.LiveIsFound | src/cuckoocache.h:467-477 | a live element is found |
| Cuckoo.FoundIsStored | src/cuckoocache.h:467-477 | what is found is in the table |
| Cuckoo.SetupHolds | src/cuckoocache.h:340-353 | a fresh cache satisfies the invariant, its epoch computed in 32 bits |
| Cuckoo.FirstEviction | src/cuckoocache.h:424-437 | the first eviction takes the second of the eight places |
| Scaling.ScaledExactly | src/cuckoocache.h:243-253 | the hashes scaled to a place are one range, and the ranges follow each other |
| Scaling.SharesAreEven | src/cuckoocache.h:205-239 | every place gets the same number of hashes, or one more, and together they get all |
| CuckooCache.CuckooCache.constructor | src/cuckoocache.h:340-353 | a fresh cache, all slots free, its epoch computed in 32 bits |
| CuckooCache.CuckooCache.CountRecent | src/cuckoocache.h:297-300 | the number of live slots of this epoch |
| CuckooCache.CuckooCache.Age | src/cuckoocache.h:306-311 | slots of the last epoch are freed and those of this one become old |
| CuckooCache.CuckooCache.Insert | src/cuckoocache.h:392-448 | state and loss are those of the specification |
| CuckooCache.CuckooCache.PlaceOrKick | src/cuckoocache.h:408-447 | the loop of swaps is the specified one |
| CuckooCache.CuckooCache.Contains | src/cuckoocache.h:467-477 | state and result are those of the specification |
| CuckooCache.CuckooCache.EpochCheck | src/cuckoocache.h:289-321 | the state is that of the specification |
| CuckooCache.BitPackedFlags.constructor | src/cuckoocache.h:61-68 | all flags set, one for each slot at least |
| CuckooCache.BitPackedFlags.BitSet | src/cuckoocache.h:92-95 | exactly that flag is set |
| CuckooCache.BitPackedFlags.BitUnset | src/cuckoocache.h:103-106 | exactly that flag is cleared |
| Chain.BlockIndex.GetAncestor | src/chain.cpp:83-107 | the block the plain walk over pprev reaches, or null outside the heights, following as many pointers as Steps counts where every block has its skip pointer; the assert holds and it terminates |
| Chain.BlockIndex.BuildSkip | src/chain.cpp:114-118 | the skip pointer is the ancestor at the skip height, and the tree stays right |
| SkipWalk.AtMost110 | src/chain.cpp:70-107 | from a height up to 2^18 to any ancestor at most 110 pointers are followed, as the comment says |
| SkipWalk.Takes110 | src/chain.cpp:70-107 | and from one such height to one ancestor it is 110 |
| SkipWalk.WalkBound | src/chain.cpp:70-107 | from any height below 2^k at most (k^2 + 9k) / 4 |
| SkipWalk.OddSteps | src/chain.cpp:83-107 | from an odd height within 2^k of a multiple of it, how many at most to a height above that multiple |
| SkipWalk.AtEven | src/chain.cpp:83-107 | from an even height the walk goes down by its lowest one, unless one back and two ones down is better |
| SkipWalk.AtOdd | src/chain.cpp:83-107 | from an odd height it goes down by two ones, or one back |
| SkipWalk.Lowest | src/chain.cpp:67-68 | clearing the lowest one leaves a multiple of the next power of two |
| Chain.AncestorOfAncestor | src/chain.cpp:83-107 | an ancestor of an ancestor is the ancestor at its height |
| Chain.AddToBlockIndex | src/validation.cpp:3686-3699 | a tree grown by a block, one higher than its parent, is a tree, and all blocks have their skip pointers if all had before |
| Chain.ActiveChain.SetTip | src/chain.cpp:11-21 | the tip is the given one and every entry is its ancestor at its height, despite the early stop |
| Chain.ActiveChain.ContainsExactly | src/chain.h:474-495 | a block is contained exactly when the chain lists it; nothing is found below height zero or above the tip |
| Chain.StopsEarly | src/chain.cpp:16-20 | where the old chain holds the ancestor it holds all lower ones |
| Chain.ActiveChain.FindFork | src/chain.cpp:51-60 | the highest ancestor of the block that is in the chain, or null |
| Chain.ActiveChain.GetLocator | src/chain.cpp:23-49 | the ancestors at the locator heights, whether read from the chain or by skipping; nothing for an empty chain |
| Chain.InChain | src/chain.cpp:37-39 | below a block of the chain the chain holds its ancestors |
| Chain.LocatorHeights | src/chain.cpp:23-49 | from the block down to height zero, strictly decreasing |
| Chain.LastCommonAncestor | src/chain.cpp:154-169 | the highest block both descend from, or null; the assert holds |
| RollingBloom.LastAreReported | src/bloom.h:112-121 | so after any number of insertions each of the last nElements keys is reported |
| RollingBloom.Run | src/bloom.cpp:341-370 | every run leaves all keys of the current and the two generations before labelled |
| RollingBloom.InsertRemembers | src/bloom.cpp:341-370 | so does each insertion |
| RollingBloom.WipeKeeps | src/bloom.cpp:343-358 | labels of this generation and the one before survive the wipe, one generation older |
| RollingBloom.LabelledAt | src/bloom.cpp:361-369 | each position of the key gets the current label and every other keeps its own |
| Scaling.Scaled | src/bloom.cpp:337-339 | a scaled hash is in range |
| RollingBloom.WindowIsReported | src/bloom.h:112-121 | after any number of insertions since the reset every key of the current generation and the two before is reported, which are more than N and up to 1.5 * N keys for even N |
| RollingBloomAnswers.ReportsExactly | src/bloom.cpp:378-390 | after any number of insertions a key is reported exactly when each of its positions is one of a key of the current generation or the two before |
| RollingBloomAnswers.PositionExactly | src/bloom.cpp:362-368 | two hashes share a position exactly when they select the same pair of words and the same bit |
| RollingBloomFilter.MaskClears | src/bloom.cpp:350-357 | the mask clears a bit pair exactly when it spells the reused generation |
| RollingBloomFilter.SetLabels | src/bloom.cpp:361-369 | the two shifted updates write one label and no other |
| RollingBloomFilter.RollingBloomFilter.constructor | src/bloom.cpp:301-326 | an empty filter with half of the elements, rounded up, in a generation |
| RollingBloomFilter.RollingBloomFilter.Insert | src/bloom.cpp:341-370 | the words spell the labels of the specification |
| RollingBloomFilter.RollingBloomFilter.Wipe | src/bloom.cpp:350-357 | exactly the positions labelled with the reused generation are cleared |
| RollingBloomFilter.RollingBloomFilter.Contains | src/bloom.cpp:378-390 | whether every position of the key has a label |
| RollingBloomFilter.RollingBloomFilter.Reset | src/bloom.cpp:398-406 | no label is left |
| CompactBlocks.Reconstructs | src/blockencodings.cpp:20-199 | without short-id collisions and up to 65536 transactions, the missing transactions in order rebuild the block of the sender |
| CompactSender.RebuildsWith | src/blockencodings.cpp:50-199 | whatever increasing positions a sender prefills, without short-id collisions and up to 65536 transactions the missing transactions in order rebuild the block |
| CompactSender.CoinbaseOnly | src/blockencodings.cpp:18-31 | the sender of the node is the one that prefills position zero alone |
| CompactSender.PositionsAreMeant | src/blockencodings.cpp:60-78 | sent as the number of transactions passed over, the i-th prefilled transaction is put at the i-th position |
| CompactSender.PositionIsSum | src/blockencodings.cpp:60-78 | whatever indexes are sent, as many slots are passed over as they say together |
| CompactSender.DiffIsSum | src/blockencodings.h:63-66 | the differences of a request say how many indexes are passed over |
| CompactBlocks.ScanIsRight | src/blockencodings.cpp:106-165 | where no id is sent to a prefilled slot, slots hold what they should and mempool_count is the number of slots filled beyond the prefilled, for messages of any size |
| CompactBlocks.CountExactly | src/blockencodings.cpp:80-165 | if every id is that of some transaction, mempool_count is right for every mempool and all extra transactions exactly when no slot from 65536 on is cut to one that is prefilled |
| CompactBlocks.ClashMiscounts | src/blockencodings.cpp:106-130 | a transaction sent to a prefilled slot takes its place and is counted |
| CompactBlocks.CountFails | src/blockencodings.cpp:106-130 | a block of 65537 transactions with the last one in the mempool is miscounted |
| CompactBlocks.SearchEndsExactly | src/blockencodings.cpp:83-86 | with short ids, the search for the first free slot ends exactly when fewer than 65536 transactions are prefilled |
| CompactBlocks.SearchFails | src/blockencodings.cpp:83-86 | 65536 prefilled transactions and one short id are accepted that far and the search does not end |
| CompactBlocks.IdsPairWithSlots | src/blockencodings.cpp:80-104 | up to 65536 transactions the i-th short id stands for the i-th slot not prefilled |
| CompactBlocks.PairingIsExactUpTo | src/blockencodings.cpp:80-104 | with no two ids equal, each stands for its slot exactly when there are at most 65536 transactions |
| CompactBlocks.PairingFails | src/blockencodings.cpp:80-104 | in the message of 65537 transactions the last id is sent to slot 0 |
| CompactBlocks.OneSlotPerShortId | src/blockencodings.cpp:60-78 | an accepted message leaves exactly one slot per short id |
| CompactBlocks.TableIsFull | src/blockencodings.cpp:101-104 | the table has all ids exactly when no two are equal |
| CompactBlocks.AnnounceAccepted | src/blockencodings.cpp:20-30 | what a sender announces is accepted, with the coinbase in slot zero and the others free |
| CompactBlocks.PrefilledIncrease | src/blockencodings.cpp:60-78 | differential positions strictly increase |
| CompactBlocks.OffersKeep | src/blockencodings.cpp:106-165 | a scan leaves every slot that no id is sent to as it was, fills the others only with transactions sent there, and counts exactly |
| CompactBlocks.ScanSettles | src/blockencodings.cpp:106-165 | in messages of any size, a slot that transactions looked at are sent to is filled exactly when at most one of the mempool and only equal extra ones are among them, and every other slot is as it was; all are looked at unless as many were found as asked for |
| CompactBlocks.FillRebuilds | src/blockencodings.cpp:184-193 | slots that agree with a block and its missing transactions give the block |
| CompactBlocks.FillExactly | src/blockencodings.cpp:178-199 | the block is completed exactly with one transaction for each empty slot |
| CompactBlocks.DiffRoundTrip | src/blockencodings.h:54-67 | increasing 16-bit indexes survive the differential encoding |
| PartialBlock.PartiallyDownloadedBlock.InitData | src/blockencodings.cpp:50-170 | invalid exactly on the listed faults; does not return exactly when there are short ids and the search does not end; when accepted, slots and count are those of the specification; otherwise nothing is changed, or the prefilled transactions up to the faulty one, or all of them, are in; all indexing is in range |
| PartialBlock.PartiallyDownloadedBlock.PlacePrefilled | src/blockencodings.cpp:60-78 | accepted exactly when all prefilled transactions are; placed are all, or those before the first that is not |
| PartialBlock.PartiallyDownloadedBlock.MapShortIds | src/blockencodings.cpp:80-101 | does not end exactly when there are short ids and the first search does not; otherwise the table of the specification, unless a bucket is crowded |
| PartialBlock.PartiallyDownloadedBlock.NextSlot | src/blockencodings.cpp:85-86 | with the offset kept to 16 bits the search ends exactly when it can come upon a free slot, and then at the first |
| PartialBlock.PartiallyDownloadedBlock.OfferAll | src/blockencodings.cpp:106-165 | the scan of the specification |
| PartialBlock.PartiallyDownloadedBlock.FillBlock | src/blockencodings.cpp:178-210 | the specified block, or invalid with too few or too many transactions; with too few the header stays set |
| CompactBlocks.TableInRange | src/blockencodings.cpp:80-104 | every kept position is a slot of the block |
| Base58Coding.DecodeEncode | src/base58.cpp:21-109 | decoding an encoded byte string gives it back |
| Base58Coding.EncodeDecode | src/base58.cpp:21-109 | encoding a decoded string gives it back without the spaces around it |
| Base58Coding.EncodesTheNumber | src/base58.cpp:71-109 | the encoding is the numeral of base 58 of the number the bytes are in base 256, with as many zeros in front |
| Base58Coding.DecodesExactly | src/base58.cpp:21-56 | a string is decoded exactly when, without the spaces around it, all its characters are of the alphabet |
| Base58Coding.AlphabetExactly | src/base58.cpp:18-19 | the alphabet is the letters and digits without 0, O, I and l |
| Base58Coding.AlphabetIncreases | src/base58.cpp:18-19 | in the order of the characters |
| Base58.EncodeBufferSuffices | src/base58.cpp:81-96 | m * 138 / 100 + 1 digits of base 58 hold every m bytes |
| Base58.DecodeBufferSuffices | src/base58.cpp:33-49 | m * 733 / 1000 + 1 bytes hold every m digits of base 58 |
| Base58.DigitsOfNum | src/base58.cpp:58-61 | digits without leading zero are those of their number |
| Base58.NumOfDigits | src/base58.cpp:33-96 | and have its value |
| Base58.Digits | src/base58.cpp:71-109 | digits in range without leading zero, none exactly for zero |
| Base58Coding.DigitOfChar | src/base58.cpp:38-43 | the alphabet gives every digit back |
| Base58Buffers.SkipZeros | src/base58.cpp:53-61 | what follows the zeros of a buffer are the digits of its number |
| Base58Buffers.MulAdd | src/base58.cpp:41-49 | the buffer is multiplied and added to; the carry assert holds |
| Base58Buffers.EncodeBase58 | src/base58.cpp:71-109 | the specified string |
| Base58Buffers.DecodeBase58 | src/base58.cpp:21-69 | success and bytes are those of the specification |
| BoolFormula.ResolvePrinted | src/LibBoolEE.cpp:70-146 | resolving the text of anything accepted, with any white space in it, gives its truth |
| BoolReading.ResolvesExactly | src/LibBoolEE.cpp:19-146 | over a valuation of names a text resolves exactly when it is the text of something accepted whose names all have a value, and its truth is the result: formulas, with text passed over before an operator formula at the beginning or after an opening parenthesis, and with & before a conjunction after | |
| BoolReading.Parsed | src/LibBoolEE.cpp:70-146 | a text that resolves is the text of something accepted |
| BoolReading.Beginning | src/LibBoolEE.cpp:19-68 | what is passed over before the parts has no parenthesis, name or negation |
| BoolReading.ScanCalm | src/LibBoolEE.cpp:19-68 | no part has the operator at its own top level |
| BoolFormula.FormulasAccepted | src/LibBoolEE.h:21-32 | every formula of the grammar is accepted |
| BoolFormula.LeadingTextIgnored | src/LibBoolEE.cpp:19-146 | characters before the first name, negation or parenthesis do not matter to a text with an operator at its top level; any other text then resolves exactly when the valuation has the whole of it |
| BoolFormula.LeadingOperator | src/LibBoolEE.cpp:19-68 | so an operator with nothing before it is accepted |
| BoolFormula.TruthFails | src/LibBoolEE.cpp:116-124 | which fails, with a missing variable, exactly when a name has no value |
| BoolFormula.SplitPrinted | src/LibBoolEE.cpp:19-68 | the text splits into the texts of the operands at its top level |
| BoolFormula.PartsTruth | src/LibBoolEE.cpp:130-146 | a formula is as true as any, or all, of its parts |
| BoolFormula.ScanInside | src/LibBoolEE.cpp:19-68 | text in parentheses is never split |
| BoolExpr.PartsShorter | src/LibBoolEE.cpp:74-146 | several parts are each shorter than the text, so resolving ends on every string |
| BoolExpr.SplitAt | src/LibBoolEE.cpp:19-68 | the parts or the failure of the specification |
| BoolExpr.StripWhitespaces | src/LibBoolEE.cpp:158-166 | the text without white space |
| BoolExpr.NameCharacters | src/LibBoolEE.cpp:154-156 | letters, digits, underscore, hash and point make up names, and no other character does |

## Left out

- Asset, wallet and messaging branches of the coin cache: they call code that is not part of this model.
- CAddrMan::Select_ and CAddrInfo::GetChance: random retries on floating-point chances.
- Fee totals and scores of modified entries, the coinbase, and quorum commitments in a block: fees decide only the order of the walk and when it stops, which the model leaves open.
- The count of updated descendants and of selected packages in the block assembler: log statistics.
- Adding several addresses in one call, duplicate block headers, and iteration over a coin view: repetitions or lookups around what is modelled.
- fQuit of the check queue: nothing in the class ever sets it.
- Wait on a queue that is never given a thread step: progress is stated as an enabled step and a decreasing measure, not as fairness of a scheduler.
- CMerkleBlock and the filters that choose the matches: the mask is a parameter.
- Hexadecimal and floating-point conversions of big integers, and bitwise and, or, xor between them.
- GetBlockProofEquivalentTime: a composition of operations that are modelled.
- CDBWrapper, its batches and its own iterator: the parent is a map and its iterator a position in its sorted keys; values have one type, so a read with another type than was written does not occur.
- DbIterator.TransactionIterator.Seek: the transaction and its parent are not changed during a walk.
- Lock-free erasure in the cuckoo cache: the flags are set by one thread at a time.
- CuckooCache.CuckooCache.Insert: the depth limit, a floating-point logarithm, is a parameter of at least one.
- CChain::FindEarliestAtLeast and the status bits, times and work of block index entries.
- Bloom filter sizing and false-positive rates, CBloomFilter, and transaction matching.
- RollingBloomFilter.RollingBloomFilter.Reset: the new tweak is part of the hash parameter and is not redrawn.
- extra_count of a partially downloaded block: a log statistic.
- PartialBlock.PartiallyDownloadedBlock.MapShortIds: that a bucket of the hash table holds more than twelve ids is a free choice.
- BlockTransactionsRequest on indexes that do not increase: the offset wraps after index 65535.
- Checksummed base 58 and the address classes on top of it.
- BoolReading.ResolvesExactly: asks the keys of the valuation to be names; other keys could make text resolve that is no formula's.
- Error texts and reports of the verifier evaluator; the kind of error is kept.
- Hash functions, signatures, networking, storage engines, RPC, configuration and mining threads.
