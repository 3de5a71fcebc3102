# Verified models of the node's data structures

This project models parts of a Bitcoin-derived node in Dafny and proves what they promise, for
all inputs, all runs or all interleavings:

- the layered coin cache (`CoinsLayer`, `CoinsView`): a stack of write-back caches of any depth
  stands for one plain ledger;
- the stochastic address manager (`AddrManState`, `AddrManSteps`, `AddrManOps`, `AddrManAdd`,
  `AddrManRun`, `AddrManBounds`, `AddrManSerial`, `AddrMan`, `AddrManCheck`, `AddrManStream`,
  `AddrManEntries`, `AddrManReload`, `AddrManEffects`, `AddrManResolve`, `AddrManWitness`): its
  indexes, tables and counters agree after every operation and survive serialization, and each
  operation does to its entry and to the tables what it is for;
- the parallel check queue (`CheckQueue`): a state machine of one master and any number of
  workers over the steps between two releases of the mutex;
- the cuckoo cache (`Cuckoo`, `CuckooTable`);
- Bech32 (`Bits`, `Bech32`, `Galois`, `Bech32Bch`, `Bech32Codec`): its checksum detects any three
  errors within 1023 symbols; and Base58 (`Radix`, `Base58`, `Base58Codec`);
- multi-limb integers and compact targets (`Limbs`, `LimbShifts`, `BaseUint`, `Compact`,
  `ArithUint256`);
- the block index and the active chain (`SkipWalk`, `SkipBound`, `Chain`);
- block template selection (`BlockAssembler`);
- the rolling bloom filter (`RollingBloom`) and amount compression (`AmountCompressor`).

Code that changes objects in place is modelled by classes whose methods are proved against
functions on values; the properties are then proved of those functions. Hashes, random numbers
and the clock are parameters, and priority queues may hand out any of their elements, so results
hold whatever these are. `dafny verify dfyconfig.toml` checks the whole project.

Where code and comment disagree the model follows the code: the first displacement of a cuckoo
insertion goes to the element's second slot (src/cuckoocache.h:396), `Add_` of the address
manager returns true for an address it did not keep (src/addrman.cpp:258), `Clear` leaves the
recorded collisions (src/addrman.h:466), `resetBlock` leaves the shielded size
(src/blockassembler.cpp:139), and multiplying a big integer by itself in place gives zero
(src/arith_uint256.cpp:74).

## Model

| member | source | states |
|---|---|---|
| CoinsLayer.FetchIsInvisible | src/coins.cpp:69-85 | filling the cache from the view below changes neither what is visible through it nor the soundness of the DIRTY and FRESH flags |
| CoinsLayer.UncacheIsInvisible | src/coins.cpp:324-331 | dropping an entry that carries no flag changes nothing that is visible and keeps the flags sound |
| CoinsLayer.SpendRemovesOne | src/coins.cpp:136-150 | a spend removes exactly one key from the visible coins, whether the entry is dropped as FRESH or kept as a DIRTY spent one, and keeps the flags sound |
| CoinsLayer.AddSetsOne | src/coins.cpp:97-117 | an add that does not throw sets exactly one key of the visible coins |
| CoinsLayer.AddKeepsFlagsIff | src/coins.cpp:97-117 | without possible_overwrite an add keeps the FRESH flag sound if and only if no unspent coin was visible before; one hidden below the cache is not noticed |
| CoinsLayer.HiddenCoinIsMarkedFresh | src/coins.cpp:97-150 | for every storable coin: over a view that has it at the outpoint, adding it to an empty cache marks the entry FRESH wrongly, and spending it then leaves nothing to write to the view below |
| CoinsLayer.AddWithOverwriteKeepsFlags | src/coins.cpp:97-117 | with possible_overwrite an add always keeps the flags sound |
| CoinsLayer.AddThrowsIff | src/coins.cpp:97-117 | the logic_error is thrown exactly when an unspent coin is cached at the outpoint and no overwrite was announced |
| CoinsLayer.MergeComposes | src/coins.cpp:243-297 | one iteration of BatchWrite gives the parent the entry through which it shows what the child showed, keeps the parent's flags sound over the grandparent, and does not reach the misapplied-FRESH throw |
| CoinsLayer.BatchWriteComposes | src/coins.cpp:243-308 | writing a whole child layer into its parent composes the two layers: over any grandparent the parent then shows exactly what the child showed, with sound flags and no throw |
| CoinsLayer.UsageUpdates | src/coins.cpp:69-150 | the account of cached script memory after one entry is set, independent of iteration order |
| CoinsLayer.UsageSplits | src/coins.cpp:324-331 | the account is one entry's memory plus that of the others, whichever entry is taken out |
| CoinsView.NullifierMergeComposes | src/coins.cpp:221-241 | merging a child's dirty nullifiers into the parent gives the parent the child's view of the nullifier set |
| CoinsView.NullifierSetOne | src/coins.cpp:577-586 | marking one nullifier as spent or unspent adds or removes exactly that one |
| CoinsView.DirtyEntriesSuffice | src/txdb.cpp:97-164 | writing only the dirty entries of a sound layer to the database yields the layer's whole view |
| CoinsView.CoinsViewDB.BatchWrite | src/txdb.cpp:97-164 | after the write every dirty coin and nullifier is as the batch says, every other one as before, and the best block is the given one |
| CoinsView.CoinsViewCache.constructor | src/coins.h:135-146 | a fresh cache over any valid view is valid and shows the same ledger |
| CoinsView.CoinsViewCache.FetchCoin | src/coins.cpp:69-85 | the visible ledger is unchanged at every depth of the stack, and afterwards the entry is cached exactly if something was found |
| CoinsView.CoinsViewCache.GetCoin | src/coins.cpp:87-95 | answers with the visible coin and leaves the visible ledger unchanged |
| CoinsView.CoinsViewCache.HaveCoin | src/coins.cpp:164-168 | true exactly if an unspent coin is visible; the ledger is unchanged |
| CoinsView.CoinsViewCache.AccessCoin | src/coins.cpp:154-162 | the visible coin or a spent one; the ledger is unchanged |
| CoinsView.CoinsViewCache.SpendCoin | src/coins.cpp:136-150 | the ledger loses exactly the one coin, which is handed out; the views below show what they showed |
| CoinsView.CoinsViewCache.AddCoin | src/coins.cpp:97-117 | the ledger gains exactly the one coin or, for unspendable and mint outputs, nothing; exactly when it throws, with the account already reduced; exactly when the cache stays valid |
| CoinsView.CoinsViewCache.Uncache | src/coins.cpp:324-331 | the visible ledger is unchanged and the account stays exact |
| CoinsView.CoinsViewCache.GetNullifier | src/coins.cpp:473-485 | answers by the visible nullifier set and leaves it unchanged, filling every cache on the way |
| CoinsView.CoinsViewCache.SetNullifiers | src/coins.cpp:577-586 | adds or removes exactly the nullifiers of the transaction |
| CoinsView.CoinsViewCache.GetBestBlock | src/coins.cpp:176-181 | the visible best block, cached |
| CoinsView.CoinsViewCache.SetBestBlock | src/coins.cpp:183-186 | the visible best block becomes the given one or, for a null hash, that of the view below; coins and nullifiers stay |
| CoinsView.CoinsViewCache.BatchWriteCoins | src/coins.cpp:243-297 | the loop over a child's coins composes the layers and never reaches the throw when the child is sound |
| CoinsView.CoinsViewCache.BatchWriteNullifiers | src/coins.cpp:221-241 | the loop over a child's nullifiers composes the nullifier layers |
| CoinsView.CoinsViewCache.BatchWriteFrom | src/coins.cpp:243-308 | a cache that takes over a sound child shows the child's ledger and stays valid over the view below it |
| CoinsView.CoinsViewCache.Flush | src/coins.cpp:310-322 | for any stack depth: the visible coins and nullifiers are unchanged, the view below now shows the same ones, the cache is empty and its account zero; over another cache the visible best block is kept if and only if the flushed hash was set or the cache below had no hash of its own to lose, or the same one as the view two levels down |
| CoinsView.Stacked | src/coins.cpp:176-186 | a cache that was never asked for its best block over one that was given one |
| CoinsView.FlushLosesBestBlock | src/coins.cpp:243-322 | flushing that cache loses the best block seen through it |
| AddrManState.GetTriedBucket | src/addrman.cpp:16-21 | the bucket is one of the tried table |
| AddrManState.GetNewBucket | src/addrman.cpp:23-29 | the bucket is one of the new table |
| AddrManState.GetBucketPosition | src/addrman.cpp:31-35 | the position is within a bucket |
| AddrManState.DeleteKeeps | src/addrman.cpp:117-129 | deleting an unreferenced id keeps the indexes mutually inverse, the placement and the counts |
| AddrManState.ClearNewKeeps | src/addrman.cpp:131-144 | clearing a new slot keeps the indexes, the placement and the reference counts exact |
| AddrManState.ClearNewShape | src/addrman.cpp:131-144 | clearing a new slot touches one id only and deletes it exactly when its last reference goes |
| AddrManSteps.CreateBetween | src/addrman.cpp:85-95 | a created entry is linked in all indexes under an id never used before |
| AddrManSteps.DeleteBetween | src/addrman.cpp:117-129 | deleting an unreferenced id keeps the whole invariant between two steps, nNew included |
| AddrManSteps.ClearNewBetween | src/addrman.cpp:131-144 | clearing keeps the whole invariant between two steps |
| AddrManSteps.AddRefBetween | src/addrman.cpp:318-321 | adding a reference raises the count by the one slot it fills and keeps the invariant |
| AddrManSteps.ScanFindsAll | src/addrman.cpp:148-155 | looking at one position per bucket misses no reference to an id |
| AddrManSteps.LeaveNewBetween | src/addrman.cpp:148-158 | after the first loop of MakeTried nothing refers to the id, its count is zero and nNew is one less |
| AddrManSteps.TakeOutBetween | src/addrman.cpp:164-174 | taking an occupant out of a tried slot keeps the invariant between two steps |
| AddrManSteps.ReenterBetween | src/addrman.cpp:176-185 | the evicted entry re-enters the new table with one reference |
| AddrManSteps.EnterTriedBetween | src/addrman.cpp:187-191 | putting an unreferenced id in its own empty tried slot keeps the invariant |
| AddrManOps.EvictKeeps | src/addrman.cpp:164-186 | evicting an occupant moves it to its own new slot, whose earlier content is the only thing that goes |
| AddrManOps.MakeTriedKeeps | src/addrman.cpp:146-192 | MakeTried keeps the invariant and every one of its asserts holds |
| AddrManOps.MakeTriedEffect | src/addrman.cpp:146-192 | the tried table changes in the id's own slot only, the new table loses the id's references and gains one for the occupant put out; key, id counter and collisions stay |
| AddrManOps.MakeTriedForgets | src/addrman.cpp:146-192 | at most one address is forgotten: one whose last reference sat where the evicted entry has to go |
| AddrManOps.NoBailOut | src/addrman.cpp:194-256 | the no-bucket-found bail-out of Good_ is unreachable |
| AddrManOps.FindExact | src/addrman.cpp:72-83 | a found id has exactly the service asked for |
| AddrManOps.GoodKeeps | src/addrman.cpp:194-256 | Good_ keeps the invariant, never empties a tried slot and never reuses an id |
| AddrManEffects.GoodEffect | src/addrman.cpp:194-256 | an entry marked good has both times set to the given one and no failed attempts, and nobody else's record changes; if it was tried already nothing else happens, if its slot is taken and the occupant is to be tested first the collision is recorded unless ten are, and else it is in its tried slot, flagged, and the occupant is back in the new table with one reference |
| AddrManEffects.GoodUnknown | src/addrman.cpp:194-210 | for a service that no entry has only the time of the last success is set |
| AddrManEffects.PromoteEffect | src/addrman.cpp:236-255 | what happens to the slot, the occupant and the collisions when an entry that is not tried yet has a success |
| AddrManAdd.InsertEffect | src/addrman.cpp:307-327 | the second half of Add_ keeps the invariant; what it can forget is the id itself or one terrible occupant whose only reference was in the slot |
| AddrManAdd.AddKeeps | src/addrman.cpp:258-329 | Add_ keeps the invariant for every address, source, penalty and outcome of its random test |
| AddrManAdd.UnknownKeptIff | src/addrman.cpp:258-329 | an address not known before is known afterwards if and only if its slot was free or its occupant could be overwritten, although Add_ returns true either way |
| AddrManEffects.AddKnownEffect | src/addrman.cpp:258-327 | Add_ of a known address: its services become the union, its time moves forward exactly if the announced one is newer by more than an hour, or a day if that is not of today, plus the penalty; it gains one reference, in the slot for this source, if and only if there is news, it is not tried and not there eight times, the dice fall for it with chance 1 to 2^references, and the slot is free or its occupant terrible |
| AddrManEffects.TimeNeverFalls | src/addrman.cpp:272-277 | with a penalty that is not negative an announcement never moves the time of an entry back |
| AddrManEffects.AddUnknownEffect | src/addrman.cpp:300-327 | an address kept for the first time is entered as announced, less the penalty, with one reference in its slot and nothing tried; one that is not kept leaves both tables as they were |
| AddrManEffects.AddUnroutable | src/addrman.cpp:260-261 | an address that is not routable changes nothing |
| AddrManEffects.InsertTable | src/addrman.cpp:307-327 | the new table gains the reference if and only if the slot is free or its occupant gives way |
| AddrManEffects.TerribleIff | src/addrman.cpp:37-55 | an entry is terrible if and only if it was not tried in the last minute and its time is zero, ten minutes ahead or thirty days old, or it had three attempts without any success, or ten without one for a week |
| AddrManWitness.AddedIsLost | src/addrman.cpp:258-329 | a run from construction after which Add_ returns true for an address and does not keep it |
| AddrManRun.TouchKeepsRun | src/addrman.cpp:331-351 | updating counters and times of one entry keeps the invariant |
| AddrManEffects.AttemptEffect | src/addrman.cpp:331-351 | the time of the last attempt is set; a failure is counted, and its time kept, if and only if it should be and none was counted since the last success of anybody; nothing else changes |
| AddrManEffects.ConnectedEffect | src/addrman.cpp:498-516 | the time of the entry is brought up to date if and only if it is more than twenty minutes old; nothing else changes |
| AddrManEffects.SetServicesEffect | src/addrman.cpp:518-534 | the services of the entry become the given ones; nothing else changes |
| AddrManEffects.NobodyTouched | src/addrman.cpp:331-351 | for a service that no entry has, Attempt_, Connected_ and SetServices_ do nothing |
| AddrManRun.GetAddrSamples | src/addrman.cpp:477-496 | the result is a sample without repetition of the entries of good quality; it has as many as there are, up to 23% of all addresses and 2500, and nothing but the order of vRandom changes |
| AddrManRun.AnybodyCanBeFirst | src/addrman.cpp:477-496 | with five addresses or more, for each one of good quality there are random numbers with which it is the first of the sample |
| AddrManRun.CollisionIsReal | src/addrman.cpp:540-590 | a recorded collision with a known id is with an occupied tried slot, so the last branch of ResolveCollisions_ is never taken |
| AddrManRun.ResolveKeeps | src/addrman.cpp:540-590 | ResolveCollisions_ keeps the invariant, never empties a tried slot and never reuses an id |
| AddrManResolve.ResolveEffect | src/addrman.cpp:540-590 | a recorded, known and valid address that is not tried when its turn comes ends up flagged in its tried slot if and only if the occupant then had no success for four hours and was last tried between one minute and four hours ago; the occupant is then out of the tried table; and exactly when the collision is forgotten |
| AddrManResolve.Turn | src/addrman.cpp:544-588 | one turn: nothing but the collision changes unless the occupant has to go, and then the address is marked good and takes its slot |
| AddrManResolve.TurnsSplit | src/addrman.cpp:542-589 | all turns are those of the smaller ids, that of the id and those of the larger ones |
| AddrManResolve.NothingResolved | src/addrman.cpp:540-590 | if no recorded address has an occupant that has to go nothing changes but the collisions, of which exactly those of unknown and invalid addresses and those with an occupant that succeeded in the last four hours are forgotten |
| AddrManResolve.FirstIsDecidedNow | src/addrman.cpp:542-589 | the collision with the smallest id is decided by the state before the call |
| AddrManRun.SelectTriedCollision | src/addrman.cpp:592-617 | without collisions nothing is selected; else the id looked up in mapInfo is never -1: the slot looked at is occupied by a known id in the tried table, whose entry is the answer |
| AddrManRun.FreshInv | src/addrman.h:466-493 | a newly constructed manager satisfies the invariant |
| AddrManRun.RunKeeps | src/addrman.cpp:194-617 | in every run of operations the invariant holds after each one and no occupied tried slot is found empty later |
| AddrManBounds.RunTimes | src/addrman.cpp:400-474 | with a positive clock the time conditions of Check_ hold after every run |
| AddrManBounds.GroupIsConfined | src/addrman.cpp:16-21 | however many addresses it has, one network group never takes more than 8 buckets of the tried table: all its slots are in a set of at most 8 buckets, and there are at most 512 of them |
| AddrManBounds.GroupIsSmall | src/addrman.cpp:16-21 | the same with numbers: at most 8 of 256 buckets and 512 slots |
| AddrManBounds.SourceIsConfined | src/addrman.cpp:23-29 | whatever it announces, one group of sources reaches at most 64 of the 1024 buckets of the new table |
| AddrManBounds.GroupFromSource | src/addrman.cpp:23-29 | from one group of sources all addresses of a group go to the same bucket |
| AddrManSerial.WrittenFacts | src/addrman.h:318-366 | every id is written exactly once, new entries before tried ones, and both asserts of Serialize hold |
| AddrManSerial.ReadWritten | src/addrman.h:318-463 | reading what was written gives the manager back up to renaming of ids: same key, entries, tried and new slots, reference counts; nothing is lost or pruned, whatever was there before |
| AddrManSerial.RoundTrip | src/addrman.h:318-463 | the whole reader, pruning included, gives back what was written; the collisions are those recorded before, and the invariant holds again if and only if there are at most 10 of them and each names an entry that was written whose tried slot is occupied |
| AddrManSerial.CopyInvIff | src/addrman.h:368-463 | a copy up to renaming of ids has the invariant if and only if the collisions recorded in it fit |
| AddrManSerial.StaleLookup | src/addrman.cpp:592-617 | what SelectTriedCollision_ looks up for an id recorded before a manager was read is -1 if and only if the entry that got this id has an empty tried slot |
| AddrManWitness.ReadingBreaks | src/addrman.h:368-463 | two runs from construction such that reading the second manager into the first leaves a collision whose lookup yields -1 |
| AddrManSerial.ReadAllLinked | src/addrman.h:368-463 | whatever the stream, entries and vRandom are linked with each other after reading, as the asserts of Delete need for pruning |
| AddrManStream.ReadAllRebuilt | src/addrman.h:368-445 | after any stream with nonnegative counts both tables, the reference counts, vRandom and the counters agree with the entries, before pruning |
| AddrManStream.PruneRebuilt | src/addrman.h:447-457 | pruning deletes every new entry without a reference and keeps all of that |
| AddrManStream.StreamConsistentIff | src/addrman.h:368-463 | after reading any stream with nonnegative counts Check_ returns 0 if and only if the key is not null and every entry that was kept is the one mapAddr has for its address and says a sensible time of its last success: no other condition can fail |
| AddrManReload.StreamKeeps | src/addrman.h:368-463 | of any stream that can be read, whoever wrote it: with a usable table, version 1 and 1024 buckets, the new table is made of listed references, a listed one is missing only if its slot is taken or the entry has eight, and a new entry is kept if and only if it has any; with another one it is kept if and only if it is the first of its own slot, which it holds; and of the tried entries the first of each slot holds it |
| AddrManReload.ReadNewFiles | src/addrman.h:388-405 | the loop over the new entries: how they are filed after any number of them |
| AddrManReload.ReadTriedFiles | src/addrman.h:408-427 | the loop over the tried entries: the first of each slot holds it, and the new ones stay as they were |
| AddrManReload.ReadTableRefs | src/addrman.h:429-445 | the loops over the listed references take up each one whose slot is free and whose entry has less than eight, and nothing else |
| AddrManReload.PruneExact | src/addrman.h:447-457 | exactly the new entries without a reference are deleted; the tables and all other entries stay |
| AddrManReload.UsableIff | src/addrman.h:384-386 | the written table is used if and only if the version is 1 and the count of buckets, with bit 30 flipped, is 1024 |
| AddrManEntries.WellSaidIsConsistent | src/addrman.h:368-463 | a condition on the stream itself: if the key is not null, all addresses are different, no new entry has a negative and every tried one a positive time of its last success, Check_ returns 0 after reading it; where no entry is lost to a collision, only then |
| AddrManEntries.ReadAllOwns | src/addrman.h:384-445 | while such a stream is read every entry stays the one mapAddr has for its address |
| AddrManEntries.ReadAllCopies | src/addrman.h:384-445 | if no tried entry is lost the entries read are those of the stream, under ids in its order |
| AddrManStream.StreamCanFail | src/addrman.h:368-463 | streams of two tried entries with one address, or without a success, for which Check_ reports an error |
| AddrManSerial.ClearKeepsIff | src/addrman.h:466-488 | Clear leaves the recorded collisions: it leads to a state with the invariant exactly when there were none |
| AddrManWitness.ClearBreaks | src/addrman.h:466-488 | a run from construction after which Clear leads to a state without the invariant |
| AddrMan.AddrMan.constructor | src/addrman.h:466-493 | the object stands for the empty manager |
| AddrMan.AddrMan.SwapRandom | src/addrman.cpp:97-115 | the object after the swap stands for the swapped state |
| AddrMan.AddrMan.Delete | src/addrman.cpp:117-129 | the object after the deletion stands for the state without the id |
| AddrMan.AddrMan.ClearNew | src/addrman.cpp:131-144 | the object after clearing stands for the cleared state |
| AddrMan.AddrMan.Create | src/addrman.cpp:85-95 | the object after creation stands for the state with the new entry, whose id is returned |
| AddrMan.AddrMan.LeaveNew | src/addrman.cpp:148-158 | the loop over all buckets removes exactly the references to the id |
| AddrMan.AddrMan.Evict | src/addrman.cpp:164-186 | moving the occupant of the tried slot back to the new table stands for the evicted state |
| AddrMan.AddrMan.MakeTried | src/addrman.cpp:146-192 | the object after MakeTried stands for the state function whose properties are proved |
| AddrMan.AddrMan.Find | src/addrman.cpp:72-83 | finds the id recorded for the network address, and only that |
| AddrMan.AddrMan.FindBucket | src/addrman.cpp:223-233 | the search from a random bucket fails exactly if no bucket holds the id |
| AddrMan.AddrMan.Good | src/addrman.cpp:194-256 | the object stays valid and stands for the state after Good_ |
| AddrMan.AddrMan.Insert | src/addrman.cpp:307-327 | the object after the second half of Add_ stands for the state function |
| AddrMan.AddrMan.Add | src/addrman.cpp:258-329 | the object stays valid and stands for the state after Add_, with the same return value |
| AddrMan.AddrMan.Attempt | src/addrman.cpp:331-351 | the object stays valid and stands for the state after Attempt_ |
| AddrMan.AddrMan.Connected | src/addrman.cpp:498-516 | the object stays valid and stands for the state after Connected_ |
| AddrMan.AddrMan.SetServices | src/addrman.cpp:518-534 | the object stays valid and stands for the state after SetServices_ |
| AddrMan.AddrMan.GetAddr | src/addrman.cpp:477-496 | the object stays valid; the addresses and the new order are those of the state function, and as many as there are of good quality, up to 23% of all and 2500 |
| AddrMan.AddrMan.ResolveCollisions | src/addrman.cpp:540-590 | the object stays valid and stands for the state after ResolveCollisions_ |
| AddrMan.AddrMan.SelectTriedCollision | src/addrman.cpp:592-617 | the result is that of the state function, nothing for an empty set of collisions |
| AddrMan.AddrMan.Clear | src/addrman.h:466-488 | the object stands for the state function of Clear |
| AddrMan.AddrMan.SerializeNew | src/addrman.h:331-341 | the first loop writes all new entries in order and records the position of each; its assert holds |
| AddrMan.AddrMan.SerializeTried | src/addrman.h:342-350 | the second loop writes all tried entries in order; its assert holds |
| AddrMan.AddrMan.SerializeTable | src/addrman.h:351-364 | the last loops write size and positions of every new bucket |
| AddrMan.AddrMan.Serialize | src/addrman.h:318-365 | the tokens written are those of the stream function |
| AddrMan.AddrMan.Unserialize | src/addrman.h:368-463 | for every token stream the object afterwards stands for what the stream function reads, or the read fails where it fails |
| AddrManCheck.Check | src/addrman.cpp:400-474 | Check_ returns 0 exactly if all conditions it checks hold of the manager |
| AddrManCheck.InvConsistent | src/addrman.cpp:400-474 | the invariant makes every check of Check_ succeed |
| AddrManCheck.RunConsistent | src/addrman.cpp:400-474 | after any run with a positive clock and a non-null key Check_ finds nothing |
| CheckQueue.BatchSize | src/checkqueue.h:103-108 | a batch has at least one check and no more than the queue holds or the batch limit allows |
| CheckQueue.LargestShare | src/checkqueue.h:103-108 | a batch is one check, or the largest number within the limit of which the queue holds as many for each of the threads, idle ones twice, and one more |
| CheckQueue.CheckQueue.TakeBatch | src/checkqueue.h:108-115 | the batch is the back of the queue in reverse, and the queue loses exactly it |
| CheckQueue.CheckQueue.Locked | src/checkqueue.h:75-118 | one passage through the mutex does to the object what the passage function does to the shared fields, with the same way out and notification |
| CheckQueue.CheckQueue.Add | src/checkqueue.h:143-156 | the checks are appended to the queue and counted in nTodo |
| CheckQueue.CheckQueue.IsIdle | src/checkqueue.h:162-166 | reports whether the shared fields are idle |
| CheckQueue.ExecuteBatch | src/checkqueue.h:119-122 | the verdict of a batch is the conjunction of the verdict before and of all its checks |
| CheckQueue.PassTodo | src/checkqueue.h:75-118 | a passage by any thread keeps nTodo equal to queued checks plus those in outstanding batches, and every added check in exactly one place |
| CheckQueue.PassCounts | src/checkqueue.h:75-118 | a passage keeps nIdle the number of waiting threads and nTotal the number of threads in the loop; the batch divisor is positive |
| CheckQueue.PassVerdicts | src/checkqueue.h:75-122 | a passage keeps every verdict right: true only if all checks it covers pass, false only if one of the round fails |
| CheckQueue.PassMasterWaits | src/checkqueue.h:75-118 | no wake-up is lost: a waiting master that has not been notified has work outstanding |
| CheckQueue.StepKeeps | src/checkqueue.h:67-156 | every step of any thread keeps the invariant |
| CheckQueue.RunKeeps | src/checkqueue.h:67-156 | the invariant holds after every interleaving of one master and any number of workers |
| CheckQueue.WaitReturnsConjunction | src/checkqueue.h:89-98 | when Wait returns its result is the conjunction of all checks added in the round |
| CheckQueue.WaitReturns | src/checkqueue.h:67-166 | for every run from construction: Wait returns the conjunction of the checks added since it last returned, and leaves the queue idle |
| CheckQueue.IdleBetweenRounds | src/checkqueue.h:162-197 | between rounds IsIdle holds until something is added, so the controller's assert does |
| CheckQueue.NoDeadlock | src/checkqueue.h:67-125 | while the master is in Wait some thread can move without a spurious wake-up |
| CheckQueue.MeasureFalls | src/checkqueue.h:67-125 | every step other than a spurious wake-up brings Wait closer to its end, and a spurious one not farther |
| CheckQueue.WaitTakesBounded | src/checkqueue.h:67-125 | however the threads are scheduled, one Wait takes a bounded number of steps that are not spurious wake-ups |
| Cuckoo.NextLoc | src/cuckoocache.h:392-406 | the slot after the first occurrence of the last one, cyclically; on the first round it is the second one, not the first as the comment says |
| Cuckoo.Depth | src/cuckoocache.h:307-319 | the exact logarithm: the depth of the largest power of two not above the size |
| Cuckoo.RoundsDownIff | src/cuckoocache.h:307-319 | setup rounds the size down to a power of two if and only if the logarithm is exact; one that is rounded up gives a larger table than asked for |
| Cuckoo.CastRoundsUpIff | src/cuckoocache.h:318 | the cast to float goes up to the next power of two if and only if the size is at least 2^24 and below that power by no more than 2^-25 of it; no other size changes its exponent |
| Cuckoo.SetupRoundsDownIff | src/cuckoocache.h:307-319 | with an exact logarithm of that float, setup rounds the size down to a power of two if and only if it is not one of those; for those the table is larger than asked for |
| Cuckoo.EpochIsFortyFivePercentIff | src/cuckoocache.h:324-325 | the epoch is 45% of the table if and only if the table has at most 2^26 slots; beyond that the 32-bit product wraps |
| Cuckoo.KeptOnce | src/cuckoocache.h:368-416 | two slots never keep the same element |
| Cuckoo.PlacedKeeps | src/cuckoocache.h:382-391 | placing an element in its first free slot keeps every kept element findable in one of its own slots |
| Cuckoo.SwappedKeeps | src/cuckoocache.h:392-414 | swapping an element with a kept one keeps the placement, and the element taken out is then kept nowhere |
| Cuckoo.DisplaceKeeps | src/cuckoocache.h:382-416 | the whole displacement chain: every element in hand but the last found its eight slots live, took the one after the slot it came from and handed on what was there; the last one is in its first garbage slot, or is lost when the depth has run out; all others keep their epoch |
| Cuckoo.EpochCheckKeeps | src/cuckoocache.h:264-296 | the epoch check keeps the placement and leaves room for one insertion within the bound |
| Cuckoo.EpochCheckGivesUp | src/cuckoocache.h:264-296 | the epoch check gives up nothing, or, when the count is due and the epoch full, keeps exactly the elements in live slots of the current epoch; and what the counter is afterwards |
| Cuckoo.InsertEffect | src/cuckoocache.h:348-416 | after its epoch check an insertion leaves the kept elements as they are if the element is kept already; otherwise they gain it, in the current epoch, and lose at most the one at the end of the displacement chain |
| Cuckoo.InsertStores | src/cuckoocache.h:368-391 | an element with a garbage slot among its eight is stored and nothing is lost; contains then finds it, as it does one that was kept already |
| Cuckoo.LossNeedsFullSlots | src/cuckoocache.h:348-416 | an element is lost only if depth_limit elements in a row, the inserted one first and each taken out of the slot that the one before it took, found all eight of their slots live; it is the one taken out last |
| Cuckoo.InsertedIsFound | src/cuckoocache.h:348-453 | in every run after setup contains finds what was inserted just before, if one of its slots was garbage or it was there already; right after setup always |
| Cuckoo.ContainsKept | src/cuckoocache.h:443-453 | contains finds every kept element |
| Cuckoo.KeptIsASet | src/cuckoocache.h:368-453 | no element is kept twice |
| Cuckoo.ErasedEffect | src/cuckoocache.h:443-453 | contains with erase gives up exactly the element asked for |
| Cuckoo.SetupInv | src/cuckoocache.h:315-329 | whatever depth the logarithm yields, the table after setup has the invariant and keeps nothing |
| Cuckoo.RunKeeps | src/cuckoocache.h:264-453 | the invariant holds after every sequence of insertions and lookups |
| Cuckoo.EpochIsBounded | src/cuckoocache.h:264-453 | in every run after setup, whatever depth the logarithm yields, at most epoch_size + max(1, epoch_size / 16) current-epoch entries are live, and contains finds what is kept |
| CuckooTable.SetBit | src/cuckoocache.h:85-116 | setting or clearing one packed bit changes that bit and no other |
| CuckooTable.Flags.constructor | src/cuckoocache.h:61-68 | all flags up to the padded size are set |
| CuckooTable.Flags.Set | src/cuckoocache.h:92-95 | exactly one flag becomes set |
| CuckooTable.Flags.Unset | src/cuckoocache.h:103-106 | exactly one flag becomes clear |
| CuckooTable.Cache.constructor | src/cuckoocache.h:302-329 | the object stands for the state after setup with the depth the logarithm of the cast size yields |
| CuckooTable.Cache.CountLive | src/cuckoocache.h:270-275 | the scan counts the live entries of the current epoch |
| CuckooTable.Cache.Age | src/cuckoocache.h:280-285 | the ageing loop stands for the aged state |
| CuckooTable.Cache.CheckEpoch | src/cuckoocache.h:264-296 | the object stands for the state after the epoch check |
| CuckooTable.Cache.Insert | src/cuckoocache.h:368-416 | the object stands for the state after the insertion |
| CuckooTable.Cache.Walk | src/cuckoocache.h:382-416 | the displacement loop stands for the displacement function |
| CuckooTable.Cache.Swap | src/cuckoocache.h:406-411 | the loop that finds the next slot and the swap stand for their functions |
| CuckooTable.Cache.Contains | src/cuckoocache.h:443-453 | the result and the new flags are those of the functions |
| Bech32.ComputePolyMod | src/bech32.cpp:37-94 | the loop computes the remainder function |
| Bech32.NextRemainder | src/bech32.cpp:80-91 | the loop body computes one step of the remainder |
| Bech32.StepLinear | src/bech32.cpp:80-91 | a step is linear over exclusive or |
| Bech32.FoldLinear | src/bech32.cpp:37-94 | the remainder is linear in the start value and in the symbols |
| Bech32.StepInjective | src/bech32.cpp:80-91 | a step on a zero symbol loses no nonzero 30-bit remainder |
| Bech32.WindowShows | src/bech32.cpp:37-94 | up to six symbols leave a remainder that is zero only if they all are |
| Bech32.ComputeExpandHRP | src/bech32.cpp:103-115 | the loop computes the expansion function |
| Bech32.ExpandHRPIs | src/bech32.cpp:103-115 | the expansion has a zero in the middle; before it the quotients of the characters by 32, all less than 8, after it their remainders |
| Bech32.ComputeChecksum | src/bech32.cpp:128-139 | the loops compute the checksum function |
| Bech32.CharsetInverse | src/bech32.cpp:13-25 | the reverse table inverts the character set |
| Bech32.CharsetReverse | src/bech32.cpp:13-25 | a character with a value is, in lower case, the character of that value |
| Bech32.RevIgnoresCase | src/bech32.cpp:16-25 | the reverse table does not distinguish cases |
| Bech32Codec.ChecksumVerifies | src/bech32.cpp:118-139 | the created checksum verifies for every prefix and all 5-bit data |
| Bech32Codec.BurstIsDetected | src/bech32.cpp:118-125 | any change confined to six consecutive symbols of a message that verifies makes it fail, at every length |
| Bech32Codec.ThreeErrorsAreDetected | src/bech32.cpp:45-49 | any change of up to three symbols within a window of 1023, scattered as they may be, of a message of any length that verifies makes it fail |
| Bech32Bch.GenIsMultiple | src/bech32.cpp:71-91 | the five constants are the multiples of x^6 mod g(x) in GF(32) |
| Bech32Bch.StepEval | src/bech32.cpp:59-91 | at a root of the generator a step multiplies the value of the remainder by the root and adds the symbol |
| Bech32Bch.FoldEval | src/bech32.cpp:37-94 | at a root of the generator the remainder has the value of the message |
| Bech32Bch.Roots | src/bech32.cpp:45-49 | three elements of GF(1024) are roots of the generator |
| Bech32Bch.ThreeVanish | src/bech32.cpp:45-49 | a message of three terms less than 1023 apart that vanishes at all three roots is zero |
| Bech32Bch.ThreeFold | src/bech32.cpp:45-49 | up to three symbols within a window of 1023, in a message of any length, leave no remainder only if they are all zero |
| Galois.TimesAssociates | src/bech32.cpp:51-57 | multiplication in GF(1024) over the GF(32) of the source is associative |
| Galois.NoZeroDivisors | src/bech32.cpp:51-57 | a product in GF(1024) is zero only if a factor is |
| Galois.AlphaOrder | src/bech32.cpp:45-49 | the quotient of consecutive roots of the generator has order 1023 |
| Galois.Vandermonde | src/bech32.cpp:45-49 | three terms that sum to zero with the weights 1, u and u^2, and 1, v and v^2, are zero if 1, u and v are different |
| Bech32Codec.ChecksumIsUnique | src/bech32.cpp:118-139 | the last six symbols of a message that verifies are the checksum created for the rest |
| Bech32Codec.ComputeEncode | src/bech32.cpp:147-159 | the loop builds the encoded string, or the empty one for a value of 32 or more |
| Bech32Codec.EncodeA | src/test/bech32_tests.cpp:29 | the prefix a without data is encoded as a12uel5l, as BIP 173 has it |
| Bech32Codec.Charset | src/bech32.cpp:13 | the characters of the 32 values, in order |
| Bech32Codec.CheckCase | src/bech32.cpp:163-170 | accepts exactly the printable strings that do not mix cases |
| Bech32Codec.ComputeDecode | src/bech32.cpp:162-192 | the loops compute the decoding function with all its failures |
| Bech32Codec.RoundTrip | src/bech32.cpp:147-192 | decoding the encoding of any printable non-empty prefix without upper case and 5-bit data gives both back, up to 1023 characters |
| Bech32Codec.DecodedEncodes | src/bech32.cpp:147-192 | encoding what was decoded gives the string back in lower case |
| Bech32Codec.DecodeIgnoresCase | src/bech32.cpp:162-192 | a string that does not mix cases decodes like its lower case |
| Bech32Codec.DecodesIff | src/bech32.cpp:147-192 | a string decodes to a message if and only if it is printable, of one case, at most 1023 long and its lower case is the message's encoding |
| Base58.IndexOfChar | src/base58.cpp:23-25 | the alphabet search inverts the alphabet |
| Base58.Alphabet | src/base58.cpp:23 | the characters of the 58 digits, in order |
| Base58.EncodeSpells | src/base58.cpp:90-128 | an encoding spells in base 58 the number that the bytes spell in base 256, with as many leading zeroes |
| Base58.KnownEncodings | src/test/data/base58_encode_decode.json:3 | the byte 0x61 is encoded as 2g, and as 112g after two zero bytes |
| Base58.ConvertedBack | src/base58.cpp:25-128 | conversion of a digit string to another base and back is the identity, leading zeroes included |
| Base58.EncodeDecode | src/base58.cpp:25-128 | encoding then decoding is the identity on every byte string |
| Base58.DecodeEncode | src/base58.cpp:25-128 | decoding then encoding is the identity on every word of the alphabet |
| Base58.DecodesIff | src/base58.cpp:25-128 | a string decodes to given bytes if and only if, but for spaces around it, it is their encoding |
| Base58Codec.EncodeFits | src/base58.cpp:99-101 | the estimate of 138/100 digits and one more suffices for every length |
| Base58Codec.DecodeFits | src/base58.cpp:37-39 | the estimate of 733/1000 bytes and one more suffices for every length |
| Base58Codec.CarriedEnd | src/base58.cpp:49-54 | the inner loop stops with nothing carried, by its condition or because the result fits, so the assert holds |
| Base58Codec.MulAdd | src/base58.cpp:46-55 | the inner loop multiplies the digit buffer and adds a digit in place, and its length bounds the nonzero digits |
| Base58Codec.Convert | src/base58.cpp:99-120 | the outer loop leaves the numeral of the number in the other base, without leading zeroes |
| Base58Codec.Translate | src/base58.cpp:121-127 | a '1' for every leading zero, then the characters of the digits |
| Base58Codec.EncodeBase58 | src/base58.cpp:90-128 | the result is the reference encoding of the bytes |
| Base58Codec.ProcessWord | src/base58.cpp:30-56 | the characters enter the buffer one by one and always fit it; fails exactly at a character outside of the alphabet, else leaves the numeral of the word in base 256 |
| Base58Codec.CharacterFits | src/base58.cpp:37-55 | the next character fits the buffer sized by the rest of the string, whatever comes after it |
| Base58Codec.OnesAreZeros | src/base58.cpp:30-36 | the leading '1's of a text are the leading zeroes of its first word |
| Base58Codec.DecodeBase58 | src/base58.cpp:25-73 | the result is the reference decoding of the string, failures included |
| Base58Codec.CheckRoundTrip | src/base58.cpp:140-164 | decoding an encoding with checksum gives the bytes back |
| Base58Codec.CheckDecodesIff | src/base58.cpp:140-164 | a string is accepted for given bytes if and only if, but for spaces around it, it is their encoding with checksum |
| BaseUint.AccumulatorFits | src/arith_uint256.cpp:62-88 | the 64-bit accumulator of both multiplications never overflows and what it carries fits in 32 bits |
| BaseUint.BaseUint.Add | src/arith_uint256.h:140-150 | the sum modulo 2^(32*WIDTH), also when both operands are the same object |
| BaseUint.BaseUint.Increment | src/arith_uint256.h:178-185 | one more, modulo 2^(32*WIDTH) |
| BaseUint.BaseUint.Decrement | src/arith_uint256.h:195-202 | one less, modulo 2^(32*WIDTH) |
| BaseUint.BaseUint.Negate | src/arith_uint256.h:82-89 | the negative, modulo 2^(32*WIDTH) |
| BaseUint.BaseUint.Subtract | src/arith_uint256.h:152-156 | the difference modulo 2^(32*WIDTH), exact if not negative |
| BaseUint.BaseUint.SetUint64 | src/arith_uint256.h:93-100 | the value becomes the given 64-bit number |
| BaseUint.BaseUint.GetLow64 | src/arith_uint256.h:280-284 | the value modulo 2^64 |
| BaseUint.BaseUint.MulSmall | src/arith_uint256.cpp:62-72 | the product with a 32-bit number modulo 2^(32*WIDTH) |
| BaseUint.BaseUint.AddRow | src/arith_uint256.cpp:80-86 | one row of the product is added at its limb, up to a multiple of the modulus |
| BaseUint.BaseUint.Mul | src/arith_uint256.cpp:74-88 | the product modulo 2^(32*WIDTH) for every limb count if the operands are different objects; an object multiplied by itself in place becomes zero |
| BaseUint.BaseUint.ShiftLeft | src/arith_uint256.cpp:28-43 | multiplication by a power of two modulo 2^(32*WIDTH), for every shift |
| BaseUint.BaseUint.ShiftRight | src/arith_uint256.cpp:45-60 | floor division by a power of two, for every shift |
| BaseUint.BaseUint.CompareTo | src/arith_uint256.cpp:116-126 | the sign is that of the comparison of the numbers, both ways |
| BaseUint.BaseUint.Bits | src/arith_uint256.cpp:213-226 | the position of the highest bit set plus one, or zero for zero |
| BaseUint.BaseUint.SetBit | src/arith_uint256.cpp:104-108 | or-ing in a bit below which nothing is set adds that power of two |
| BaseUint.BaseUint.DivideBit | src/arith_uint256.cpp:104-111 | one step of the long division keeps dividend = remainder + divisor * quotient with a remainder below the shifted divisor |
| BaseUint.BaseUint.LongDivision | src/arith_uint256.cpp:102-112 | the loop ends with the exact quotient and a remainder below the divisor |
| BaseUint.BaseUint.Divide | src/arith_uint256.cpp:90-114 | the quotient is exact floor division; a zero divisor is refused after the object has been cleared |
| LimbShifts.LeftValue | src/arith_uint256.cpp:28-43 | the limbs the left shift puts together hold the shifted number modulo the width |
| LimbShifts.RightValue | src/arith_uint256.cpp:45-60 | the limbs the right shift puts together hold the number divided by the power of two |
| Compact.OverflowsIff | src/arith_uint256.cpp:284-289 | the overflow condition holds if and only if mantissa * 256^(exponent - 3) does not fit in 256 bits |
| Compact.SizedIs | src/arith_uint256.cpp:293-308 | the size chosen is that of the number with a sign bit in front and the mantissa fits in 23 bits, so both asserts hold |
| Compact.RoundTrip | src/arith_uint256.cpp:273-314 | reading the compact form of a number gives the rounded number, its sign and no overflow |
| Compact.RoundedBelow | src/arith_uint256.cpp:273-314 | the rounded number never exceeds the number |
| Compact.RoundedMonotone | src/arith_uint256.cpp:273-314 | rounding is monotone |
| Compact.RoundedStays | src/arith_uint256.cpp:273-314 | a rounded number rounds to itself and has the same compact form |
| Compact.KnownForms | src/test/arith_uint256_tests.cpp:750-805 | compact forms and the numbers they stand for, both ways |
| ArithUint256.SetCompact | src/arith_uint256.cpp:273-291 | the value is the number meant modulo 2^256; the overflow flag is raised if and only if that does not fit, the negative flag for a nonzero number with the sign bit |
| ArithUint256.GetMantissa | src/arith_uint256.cpp:295-302 | the mantissa of the number for its size in bytes |
| ArithUint256.GetCompact | src/arith_uint256.cpp:293-314 | the result is the encoding function of the number, in 32 bits |
| ArithUint256.Pack | src/arith_uint256.cpp:309-313 | size, sign and mantissa or-ed together add up |
| SkipWalk.InvertLowestOneIs | src/chain.cpp:69-70 | n & (n - 1) is n less its lowest bit |
| SkipWalk.SkipHeightBelow | src/chain.cpp:72-81 | the skip height of a positive height is strictly lower |
| SkipWalk.OddNext | src/chain.cpp:88-101 | at an odd height the walk follows pskip exactly if that does not go too far, and clears two bits |
| SkipWalk.EvenNext | src/chain.cpp:88-101 | so it does at a multiple of eight, clearing one bit |
| SkipBound.Drop | src/chain.cpp:88-101 | getting past the middle of the 2^q blocks below a multiple of 2^q takes at most (q + 3) / 2 iterations |
| SkipBound.AlignedSteps | src/chain.cpp:88-101 | right below a multiple of 2^q, less than 2^q blocks back take at most Best(q) iterations, a quarter of q^2 + 6 q - 12 rounded up |
| SkipBound.EvenSteps | src/chain.cpp:88-101 | from a multiple of eight: jumps over single bits and what follows them stay within the bound for the blocks they share |
| SkipBound.OddSteps | src/chain.cpp:88-101 | from an odd height: jumps over two bits and what follows them take at most Best(k) + 4 iterations |
| SkipBound.StepsBound | src/chain.cpp:78-101 | less than 2^k blocks back, from any height, take at most Limit(k) iterations |
| SkipBound.LimitIs | src/chain.cpp:75-80 | the limit is at most (k^2 + 8 k + 3) / 4, and for 2^18 blocks the 110 steps that the comment gives from simulations |
| SkipBound.StepsWithin | src/chain.cpp:75-101 | less than 2^18 blocks back take at most 110 iterations, from any height |
| Chain.BlockIndex.GetAncestor | src/chain.cpp:83-104 | the skip walk returns the block that walking pprev to the height returns, or null for a height that does not exist; it descends without meeting a null pointer |
| Chain.BlockIndex.WalkBack | src/chain.cpp:75-104 | the loop ends at that block after at most Limit(k) iterations for less than 2^k blocks back, 110 for less than 2^18 |
| Chain.BlockIndex.BuildSkip | src/chain.cpp:111-115 | the skip pointer becomes the ancestor at the skip height |
| Chain.AddToBlockIndex | src/validation.cpp:2727-2750 | a known hash gives the block it has; another one gives a new block linked to the block its header names, and every block of the index keeps its skip pointer at the ancestor of its skip height |
| Chain.LastCommonUnique | src/chain.cpp:331-349 | the deepest common ancestor is unique |
| Chain.GenesisIsCommon | src/chain.cpp:346-348 | blocks that share a genesis have a common ancestor |
| Chain.MeetIsLastCommon | src/chain.cpp:341-344 | walking both blocks of one height back in step ends at their deepest common ancestor |
| Chain.LastCommonAncestor | src/chain.cpp:331-349 | the result is the deepest common ancestor, or null without one; the assert holds with or without a shared genesis |
| Chain.ActiveChain.Contains | src/chain.h:571-575 | true exactly for the tip and its ancestors |
| Chain.ActiveChain.Next | src/chain.h:577-584 | the successor is in the chain and follows the block; there is none exactly for the tip and for blocks outside |
| Chain.ActiveChain.SetTip | src/chain.cpp:16-27 | the chain is the full ancestor list of the new tip in spite of the early stop |
| Chain.ActiveChain.FindFork | src/chain.cpp:58-67 | the result is the deepest common ancestor of the block and the tip |
| Chain.FindForkIsLastCommonAncestor | src/chain.cpp:58-67 | FindFork and LastCommonAncestor with the tip give the same block |
| Chain.GetLocator | src/chain.cpp:29-56 | the locator lists the ancestors at its heights, from the start block to the genesis block |
| Chain.LocatorIsShort | src/chain.cpp:29-56 | below height 2^k a locator has at most 11 + k entries |
| Chain.LocatorSteps | src/chain.cpp:29-56 | the first twelve entries of a locator are consecutive heights; each later difference is twice the one before, and only the last can be cut short, at zero |
| BlockAssembler.TemplateGrows | src/blockassembler.cpp:301-311 | adding a transaction whose parents are in the block keeps each transaction once and after its parents |
| BlockAssembler.CountersGrow | src/blockassembler.cpp:301-311 | the counters stay the sums over the block |
| BlockAssembler.FitsIff | src/blockassembler.cpp:248-299 | what fits, with the numbers: final, within the block size, less than 50000 sigops, and if shielded enabled and within 750000 shielded bytes |
| BlockAssembler.Assembler.constructor | src/blockassembler.cpp:125-137 | sizes are clamped and the block is empty |
| BlockAssembler.Assembler.ResetBlock | src/blockassembler.cpp:139-153 | the block is empty and its counters at the coinbase reserve; the shielded size is carried over |
| BlockAssembler.Assembler.IsStillDependent | src/blockassembler.cpp:238-246 | true exactly if a mempool parent is outside of the block |
| BlockAssembler.Assembler.TestForBlock | src/blockassembler.cpp:248-299 | accepts exactly what fits all limits at the current counters, and finishes a block only when it is all but full |
| BlockAssembler.Assembler.AddToBlock | src/blockassembler.cpp:301-311 | the transaction is appended, all sums, limits and the order stay right, and no counter falls |
| BlockAssembler.Assembler.ClearChildren | src/blockassembler.cpp:369-374 | exactly the waiting children move to the queue, each once |
| BlockAssembler.Assembler.AddPriorityTxs | src/blockassembler.cpp:379-449 | the template stays right, the loop ends, a transaction of the queue is never in the block already, and what waits has a parent outside; with each one added but the last the block is below the priority size and the priority allows to be free; if none ended the selection no other transaction could be added |
| BlockAssembler.Assembler.TryPrioritized | src/blockassembler.cpp:408-447 | one round of the priority loop: what is added fits, and what is left waiting has a parent outside |
| BlockAssembler.Assembler.TryScored | src/blockassembler.cpp:345-375 | one round accounts for the transaction tried: it is in the block, waits for a parent outside, does not fit at the counters then, or pays too little; it is refused for its fee if and only if its parents are in the block, it pays less than the minimum and the block has its minimum size |
| BlockAssembler.Assembler.AddScoreTxs | src/blockassembler.cpp:325-377 | the template stays right and grows at its end, the loop ends; if a low fee ended it, every other transaction gone through before is in the block, has a parent outside, does not fit at the final counters, or was put back when a parent was added; unless that or an all but full block ended it the selection is maximal: every transaction left out has a parent outside or does not fit at the final counters; each one added pays the minimum fee, or the block was still below its minimum size |
| BlockAssembler.Assembler.SelectTxs | src/blockassembler.cpp:155-192 | for every mempool and every order of priorities and scores: each transaction once and after its parents, sums exact and limits kept; the selection is maximal unless the block is all but full or a transaction paid too little, and then those gone through before it are dealt with; the block's own shielded size is within its limit, and equals the counter if and only if that was zero before; those after the part by priority pay the minimum fee or came while the block was below its minimum size; those of that part but the last are within the priority size and allowed to be free, and, if there is such a part and the block is not finished, it ends only with its size reached, with one that is not allowed to be free, or when nobody else fits |
| BlockAssembler.ShieldedCarriesOver | src/blockassembler.cpp:139-192 | selecting one shielded transaction twice with one object leaves the counter at twice its size |
| BlockAssembler.WaitsOn | src/blockassembler.cpp:350-375 | after an addition those that are not its children still have a parent outside |
| RollingBloom.ReadWritten | src/bloom.h:145-152 | writing a packed two-bit cell changes it and no other |
| RollingBloom.CellNext | src/bloom.cpp:264-285 | the wipe at the start of a generation clears exactly the cells last set three generations before |
| RollingBloom.InsertNext | src/bloom.cpp:264-285 | one insertion takes every cell and both counters to what the keys inserted so far say, for every generation size |
| RollingBloom.WindowCovers | src/bloom.cpp:242-243 | the window is the last two full generations and the current one |
| RollingBloom.ContainsIff | src/bloom.cpp:293-302 | a key is reported if and only if each of its positions was set by some key of the window |
| RollingBloom.ReportedIff | src/bloom.cpp:264-302 | on the hash itself: a key is reported if and only if each of its hashes falls, modulo the size, where some hash of one of the last 2 g + 1 + (n - 1) mod g of n keys falls, g being the keys of a generation |
| RollingBloom.NothingReported | src/bloom.cpp:293-318 | after a reset nothing is reported |
| RollingBloom.LastKeysContained | src/bloom.cpp:264-302 | each of the last 2 * nEntriesPerGeneration keys, and every one of the current generation, is reported |
| RollingBloom.LastElementsContained | src/bloom.cpp:236-302 | each of the last nElements keys is reported |
| RollingBloom.Filter.Put | src/bloom.h:149-152 | the cell at a position gets the value and every other cell stays |
| RollingBloom.Filter.constructor | src/bloom.cpp:236-257 | a new filter holds no key; a generation takes half of the elements, rounded up |
| RollingBloom.Filter.Reset | src/bloom.cpp:310-318 | all keys are forgotten |
| RollingBloom.Filter.Wipe | src/bloom.cpp:272-277 | exactly the cells of the generation number are cleared |
| RollingBloom.Filter.Roll | src/bloom.cpp:266-278 | a full generation gives way to the next number, whose cells are wiped |
| RollingBloom.Filter.Insert | src/bloom.cpp:264-285 | the filter holds what the keys with the new one say |
| RollingBloom.Filter.Contains | src/bloom.cpp:293-302 | true exactly if all cells of the key are set |
| AmountCompressor.DecompressCompress | src/compressor.cpp:130-182 | decompressing a compressed amount gives it back, for every natural number |
| AmountCompressor.CompressDecompress | src/compressor.cpp:130-182 | compressing a decompressed number gives it back, for every natural number |
| AmountCompressor.CompressIncreases | src/compressor.cpp:139-156 | among amounts with equally many trailing zeroes, up to nine, the larger has the larger form; the last digit of the form less one is that number |
| AmountCompressor.KnownForms | src/test/compress_tests.cpp:42-47 | the forms of nothing, one unit, a cent, a coin, fifty and twenty-one million coins |
| AmountCompressor.CompressWrapsIff | src/compressor.cpp:139-156 | the compressed form of a 64-bit amount exceeds 64 bits if and only if the amount does not end in a zero and is above 2049638230412172402 |
| AmountCompressor.DecompressWrapsIff | src/compressor.cpp:158-182 | a number decompresses to more than 64 bits if and only if its quotient by ten, after taking one off, is above a given bound for the last digit |
| AmountCompressor.MoneyFits | src/chainparams.cpp:140 | no amount up to the main network's limit wraps |
| AmountCompressor.CompressAmount | src/compressor.cpp:139-156 | the 64-bit result is the reference modulo 2^64, and the reference itself exactly below the wrapping amounts |
| AmountCompressor.DecompressAmount | src/compressor.cpp:158-182 | the 64-bit result is the reference modulo 2^64, and the reference itself for every number within those bounds |

## Left out

- Sapling anchors, `GetBestAnchor`, cursors, `PruneInvalidEntries` and input totals of the coin cache.
- Failures of database writes, partial batches and replay after a crash in `CCoinsViewDB`.
- `Select_` and `GetChance` of the address manager: floating point and termination with probability one.
- AddrMan.AddrMan.Unserialize: assumes that the count of new entries in the stream is not negative, because a negative id would collide with the marker of an empty slot.
- AddrManCheck.Check: does not model that looking up a missing address in `Check_` inserts it, because a missing address counts as id 0 before and after that.
- The source of randomness and MurmurHash, SipHash and double SHA-256: parameters of the models.
- Thread interruption and `fQuit` of the check queue: `fQuit` is never set in the source.
- Memory ordering of the cuckoo cache's atomic flags: modelled sequentially, as its documented caller obligations allow.
- The rounding of the library's `log2` in `setup` of the cuckoo cache: the cast to float is modelled, the result of the logarithm is a parameter between 1 and 31, because a shift by 32 is undefined.
- AddrManEntries.WellSaidIsConsistent: the condition on the stream is necessary only where no entry is lost, because what a lost entry does to another one with its address depends on the order in which slots were taken.
- Cuckoo.RoundsDownIff: takes the depth as given, because the library's logarithm is a parameter; Cuckoo.SetupRoundsDownIff gives the sizes for an exact one.
- The construction of a cuckoo cache and its `setup` are one constructor, because operations before `setup` are excluded by the source.
- Error patterns of Bech32 beyond a burst of six symbols and three scattered errors within 1023, such as four within 89 characters.
- Hexadecimal forms, bitwise operators and floating-point conversion of big integers.
- 32-bit overflow of lengths, heights and counters in Base58, the chain, the template and the bloom filter: they are unbounded here.
- Chain.AddToBlockIndex: takes a block that names its own hash as its predecessor for one without a known predecessor, because a hash cannot contain itself.
- Stake modifiers, chain work, validity flags and proof-of-stake search of the block index.
- Coinbase, header and signature of a block template: only the selection of mempool transactions is modelled, with the order of equal priorities left open.
- `CBloomFilter`, filter merging and the floating-point sizing of filters: sizes are parameters.
- Script and public-key compression.
- Startup, RPC, wallet, masternode and logging code.
