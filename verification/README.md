# Verified models of a Bitcoin-family node

This project models, in Dafny, the parts of the node whose correctness rests on deep invariants, and
proves those invariants for every input and every run. Check everything with

    dafny verify dfyconfig.toml

The files follow the program's components.

- **Unspent outputs** (`CoinsModel`, `CoinsRefinement`, `CoinsRuns`, `CoinsCache`): a stack of
  write-back caches over a database, with DIRTY and FRESH flags that let a cache drop entries
  without telling its parent. Any legal run on any stack refines plain maps from txid to what a record
  says, its fields and unspent outputs. `CoinsCache` is the stack as objects linked through their bases.
- **Address manager** (`AddrManModel`, `AddrManInvariant`, `AddrManRuns`, `AddrManEffects`, `AddrMan`,
  `AddrManCheck`, `AddrManStream`, `AddrManRoundTrip`, `AddrManPersist`, `AddrManFile`,
  `AddrManAnyStream`, `AddrManOldFormat`): five cross-linked indexes with reference counts. The
  consistency that `Check_` tests at run time holds after every run, `Check_` is shown to test exactly
  that, and for every operation it is said who is known afterwards, with what data and where. Saving and
  loading reproduces the manager up to the numbering of ids, and an arbitrary stream loads into a
  consistent manager exactly under a stated condition.
- **Block assembler** (`Mempool`, `Packages`, `Miner`): greedy selection of transaction packages
  over a pool of any shape, after a selection by priority. Which package scores best is left open, so
  the results hold for every order in which packages are offered: what is in the block, and why what is
  not in it was left out.
- **Merkle trees** (`Merkle`, `MerkleRoot`, `MerkleUnique`): the one-pass computation of root, branch and
  duplicate flag against the tree built level by level, and what the flag rules out.
- **Partial Merkle trees** (`PartialMerkle`, `PartialMerkleRoundTrip`, `PartialMerkleSize`,
  `PartialMerkleFormat`, `PartialMerkleTree`; BIP 37): soundness against arbitrary received data, exactly
  which data is accepted, round trip, and exactly when the documented size bounds hold.
- **Parallel check queue** (`CheckQueue`, `CheckQueueSafety`, `CheckQueueProgress`, `CheckQueueWakeups`): a
  state machine over the critical sections of one master and any number of workers, with spurious wake-ups.
  Wait tells the truth, is never stuck and returns, and work is never left to sleeping workers.
- **256-bit arithmetic and targets** (`Limbs`, `Shifts`, `ArithUint`, `CompactModel`, `Compact`):
  arrays of 32-bit limbs of any width updated by carry, shift and division loops; the compact target
  encoding; block proof.
- **Chain** (`SkipList`, `Chain`): skip list, active chain, fork point and locator against plain `pprev`
  walks, and how many steps the skip list takes.
- **Rolling Bloom filter** (`RollingBloom`) and **cuckoo cache** (`CuckooCache`): bit-packed
  structures against their history and against a multiset of elements.
- **Text codecs** (`Numerals`, `Base58Bounds`, `Base58`, `Bech32Code`, `Bech32Field`, `Bech32Poly`,
  `Bech32Orbits`, `Bech32Tables`, `Bech32Distance`, `Bech32`, `Bech32Examples`, `ConvertBits`; BIP 173,
  BIP 350).
- **Merged mining** (`AuxPow`) and **stream framing** (`NetStream`). `Common` and `LittleEndian` hold shared
  definitions.

Objects that the program updates in place are classes whose methods are proved against functions on
values; the properties are proved about those functions and about runs of them. Hash functions are
parameters about which nothing is assumed: where a statement needs them to be collision-free it says
"or here are two different pairs with one hash". Time, randomness, sockets and the results of
individual checks are parameters too.

Where the code and its documentation differ, the model follows the code:

- The documentation of partial Merkle trees promises at most 2N-1 flag bits for N hashes.
  `FlagBitsBound` shows exactly when that holds; `FlagBitsBoundFails` is a three-transaction tree
  for which it does not.
- It also gives a hard guarantee of 10 + ceil(32.25 N) bytes, which follows from the former.
  `SizeBound` shows exactly when that holds; `SizeBoundFails` are 1025 transactions that need one byte
  more.
- The comment in the cuckoo cache says that the first eviction takes the first hashed place; it takes
  the second (`FirstEviction`). It also says that the element just put in is not moved; `MovedAgain`
  says exactly when it is, `MovedAtOnce` gives places for which it is.
- `operator*=` clears its target before it reads its operand, so `x *= x` gives zero (`MulAssign`).
- `operator/=` has already cleared its target when it throws for a zero divisor (`DivAssign`).
- The rule for coinbases without the merged-mining header is documented as enforcing a single chain
  root. `SingleRootIff` says exactly for which scripts, with or without the header, there is a single
  one; `LegacyNotUnique` is a script with two. `HeaderSuffices` shows that the header is enough.
- The comment on the Bech32 checksum says that it is zero exactly for multiples of the polynomial with all
  seven coefficients one. `AllOnesIsNotIt` shows that this is not so; `PolyModDivides` proves the statement
  for the generator of BIP 173, which the constants encode.
- The comment on the Merkle root says that the flag detects all known ways of changing the list without
  changing the root. `RootDeterminesList` proves it for lists of one height; `HeightsMatter` shows that
  across heights it is not so.
- The Bech32 decoder takes the first symbol for the version even where there is no data, so the shortest
  string of BIP 173 is not accepted (`NoData`). `RoundTrip` says exactly what is read back.
- The minimal proof that `initAuxPow` makes passes `check` except for the block hashes that
  `InitProofAcceptedIff` names.
- The comment on `ModifyNewCoins` relies on BIP 30; `ModifyNewCoinsExactly` says exactly what the
  call does without it and `Bip30IsNeeded` why it matters.

## Model

| member | source | states |
|---|---|---|
| `CoinsModel.TrimKeeps` | src/coins.h:114-119 | Cleanup keeps a prefix of the outputs, drops spent ones only, and leaves no spent output at the end |
| `CoinsModel.CleanupKeepsOutputs` | src/coins.h:114-119 | Cleanup changes nothing that a record says: coinbase flag, height, version, and which outputs are available with what values; what is left ends in no spent output and is empty exactly when the record is pruned |
| `CoinsRefinement.FetchRefines` | src/coins.cpp:72-97 | reading through any depth of caches keeps the DIRTY/FRESH invariant and changes no visible map of the stack |
| `CoinsRefinement.UncacheRefines` | src/coins.cpp:252-259 | dropping an unmodified entry keeps the invariant and every visible map |
| `CoinsRefinement.ModifyCoinsRefines` | src/coins.cpp:99-125 | opening a modifier keeps the invariant and the visible map, whatever the base holds |
| `CoinsRefinement.ModifyNewCoinsRefines` | src/coins.cpp:121-153 | under the BIP 30 precondition the call does not throw, keeps the invariant and empties the entry in the plain map |
| `CoinsRefinement.ModifyNewCoinsExactly` | src/coins.cpp:134-153 | exactly when the call throws, and exactly when the entry it leaves satisfies the invariant |
| `CoinsRefinement.AssignRefines` | src/coins.cpp:317-320 | writing through the modifier is one update of the plain map |
| `CoinsRefinement.CommitRefines` | src/coins.cpp:322-334 | the modifier's destructor, which cleans up and erases a FRESH pruned entry, changes nothing in the plain map of what records say |
| `CoinsRefinement.NeverMisapplied` | src/coins.cpp:209-215 | the "FRESH flag misapplied" exception is unreachable for a child that satisfies the invariant |
| `CoinsRefinement.MergedDbShowsChild` | src/txdb.cpp:47-68 | after BatchWrite the database shows at every txid what the child showed |
| `CoinsRefinement.MergedCacheShowsChild` | src/coins.cpp:188-243 | the same for a parent cache, whose own entries stay true to the grandparent |
| `CoinsRefinement.FlushRefines` | src/coins.cpp:245-250 | Flush succeeds, empties the cache, keeps the visible map and makes the base equal to it |
| `CoinsRuns.TouchRefines` | src/coins.cpp:72-97 | reads and Uncache at any depth, below a live child too, keep the invariant and every visible map |
| `CoinsRuns.StepRefines` | src/coins.cpp:72-334 | every legal operation on a stack commutes with forgetting the caches, throws nothing and keeps the invariant |
| `CoinsRuns.RunRefines` | src/coins.cpp:72-334 | so does every legal run of operations on a stack of any depth: the stack refines plain maps from txids to fields and unspent outputs, on which closing a modifier does nothing |
| `CoinsRuns.RunFromDatabase` | src/coins.cpp:90-97 | from a bare database, the records GetCoins reports at the end of any legal run say what the plain map holds, and are there exactly when it holds something |
| `CoinsRuns.SessionShows` | src/coins.cpp:317-334 | after a session that wrote c, the visible record has the three fields of c and exactly its available outputs, or is gone where c has none; every other record says what it said |
| `CoinsRuns.NothingKept` | src/coins.cpp:322-334 | a session that leaves nothing, on a txid that is nowhere, leaves no cache entry either |
| `CoinsRuns.ShortLived` | src/coins.cpp:188-250 | what FRESH is for: a record made in one cache, flushed down and spent before the next flush leaves no entry in either cache and never reaches what is below |
| `CoinsRuns.UncacheDrops` | src/coins.cpp:252-259 | an entry without flags is dropped, one with a flag stays, and nothing else changes |
| `CoinsRuns.ReadMarks` | src/coins.cpp:72-88 | a record that was read is cached as it is, never DIRTY, and FRESH exactly when nothing of it is unspent below |
| `CoinsRuns.FlushThenDiscard` | src/coins.cpp:245-250 | flushing a child and discarding it leaves the parent with the child's visible map |
| `CoinsRuns.Bip30IsNeeded` | src/coins.cpp:134-153 | a concrete stack where violating BIP 30 makes a spent record visible again |
| `CoinsRuns.StepKeepsTidy` | src/coins.cpp:322-334 | no operation leaves a record that ends in spent outputs outside the open modifier |
| `CoinsRuns.RunKeepsTidy` | src/coins.cpp:322-334 | nor does any legal run |
| `CoinsRuns.HaveCoinsExact` | src/coins.cpp:164-171 | after every legal run HaveCoins' test for an empty vout is exact: true if and only if something is unspent |
| `CoinsCache.CoinsViewDB.BatchWrite` | src/txdb.cpp:47-68 | the loop over the map leaves exactly the merged database |
| `CoinsCache.CoinsViewCache.FetchCoins` | src/coins.cpp:72-88 | changes the whole stack as Fetch does and returns the entry of the lookup |
| `CoinsCache.CoinsViewCache.GetCoins` | src/coins.cpp:90-97 | returns the record visible through the stack |
| `CoinsCache.CoinsViewCache.HaveCoins` | src/coins.cpp:164-171 | whether the visible record has any output left |
| `CoinsCache.CoinsViewCache.ModifyCoins` | src/coins.cpp:99-125 | changes the whole stack as ModifyCoins of the model |
| `CoinsCache.CoinsViewCache.ModifyNewCoins` | src/coins.cpp:134-153 | changes the stack or throws as ModifyNewCoins of the model |
| `CoinsCache.CoinsViewCache.Assign` | src/coins.h:364-365 | writes through the modifier as Assign of the model |
| `CoinsCache.CoinsViewCache.Commit` | src/coins.cpp:322-334 | the destructor with its cleanup loop changes the stack as Commit of the model, and so changes nothing that a record says |
| `CoinsCache.CoinsViewCache.Uncache` | src/coins.cpp:252-259 | changes the stack as Uncache of the model |
| `CoinsCache.CoinsViewCache.WriteEntry` | src/coins.cpp:190-238 | one round of the merge: throws exactly on a misapplied FRESH flag, otherwise stores the merged entry |
| `CoinsCache.CoinsViewCache.BatchWrite` | src/coins.cpp:188-243 | the erasing loop, in any order, merges the whole map or throws as the model says |
| `CoinsCache.CoinsViewCache.Flush` | src/coins.cpp:245-250 | changes both caches, or cache and database, as Flush of the model |
| `AddrManInvariant.DeleteKeeps` | src/addrman.cpp:113-125 | Delete's asserts hold for an entry without references, and everything but that entry stays consistent |
| `AddrManInvariant.SwapKeeps` | src/addrman.cpp:93-111 | SwapRandom's asserts hold and the invariant is kept |
| `AddrManInvariant.ClearKeeps` | src/addrman.cpp:127-140 | ClearNew's assert holds; the entry loses one reference, and is deleted exactly when it was the last |
| `AddrManInvariant.EvictKeeps` | src/addrman.cpp:160-183 | moving a tried entry back to its primary "new" bucket trips no assert and keeps the invariant |
| `AddrManInvariant.MakeTriedKeeps` | src/addrman.cpp:142-188 | the reference count reaches zero, no assert trips and the invariant holds afterwards |
| `AddrManRuns.InitialInv` | src/addrman.h:477-480 | a newly constructed manager is consistent |
| `AddrManRuns.AlwaysInSomeBucket` | src/addrman.cpp:219-234 | an entry that is not tried is found in some bucket: the bail-out is unreachable |
| `AddrManRuns.GoodKeeps` | src/addrman.cpp:190-240 | Good_ trips no assert and keeps the invariant |
| `AddrManRuns.GoodMakesTried` | src/addrman.cpp:190-240 | after Good_ a known address is tried and has that success time |
| `AddrManEffects.GoodPromotes` | src/addrman.cpp:142-240 | Good_ on a known new entry: exactly its statistics and table change; whoever held its tried cell keeps its entry and goes back to the cell its own source selects, where at most the occupant loses a reference; everybody else is as before |
| `AddrManEffects.GoodOtherwise` | src/addrman.cpp:190-217 | on a tried entry only the statistics change, on anything else only the time of the last success |
| `AddrManEffects.EvictEffect` | src/addrman.cpp:160-183 | the evicted entry keeps its data, has one reference in its primary cell and nothing else is lost but one reference of that cell's occupant |
| `AddrManRuns.PlaceKeeps` | src/addrman.cpp:291-312 | the second half of Add_ trips no assert and settles an entry that had no reference yet |
| `AddrManRuns.AddKeeps` | src/addrman.cpp:242-313 | Add_ trips no assert and keeps the invariant, for every input and every random draw |
| `AddrManEffects.AddUnknown` | src/addrman.cpp:284-313 | an unknown routable address becomes known if and only if the cell its source selects is free or held by an entry that is terrible or has further references; then it has the announced service, services, source and time less penalty, no statistics, one reference and that cell; all other entries are as before, but for the occupant, which loses a reference and is gone if it was the last |
| `AddrManEffects.AddKnown` | src/addrman.cpp:256-313 | a known address keeps its entry: services are added, the time is renewed when due, and it gains a reference in the cell its source selects exactly under the stated conditions; all other entries are as before, but for that cell's occupant |
| `AddrManEffects.AddUnroutable` | src/addrman.cpp:244-245 | an address that is not routable changes nothing |
| `AddrManEffects.PlaceTakes` | src/addrman.cpp:291-307 | an entry that may take the cell does: one reference more, and only the occupant loses one |
| `AddrManEffects.PlaceLeaves` | src/addrman.cpp:291-312 | one that may not is deleted if it has no reference, and unchanged otherwise; nobody else changes |
| `AddrManRuns.GetAddrKeeps` | src/addrman.cpp:462-481 | GetAddr_ only reorders; it gathers distinct entries that are not terrible, and ends with as many as its limit allows or with all of them |
| `AddrManEffects.AnyoneMayComeFirst` | src/addrman.cpp:469-480 | the sample is a draw: any entry that is not terrible comes first if the first draw points at it |
| `AddrManEffects.SampleSize` | src/addrman.cpp:464-466 | the limit is the largest number within 2500 and within 23 percent of the entries |
| `AddrManEffects.FailureCountsOnce` | src/addrman.cpp:315-335 | between two successes anywhere a failure counts at most once; exactly which fields of exactly this entry change |
| `AddrManEffects.UncountedAttempt` | src/addrman.cpp:315-335 | an attempt not to be counted changes the time of the last try alone |
| `AddrManEffects.ConnectedRenews` | src/addrman.cpp:483-501 | the time of exactly this entry is brought within twenty minutes; a second call changes nothing |
| `AddrManEffects.ServicesAreSet` | src/addrman.cpp:503-519 | the services of exactly this entry are replaced |
| `AddrManEffects.TerribleIff` | src/addrman.cpp:33-52 | terrible means: not tried in the last minute, and from the future, unseen for 30 days, failed 3 times without a success or 10 times in over a week |
| `AddrManRuns.StepKeeps` | src/addrman.cpp:93-519 | every public operation with positive times keeps the whole invariant and trips no assert |
| `AddrManRuns.RunKeeps` | src/addrman.cpp:385-459 | so does every run from the constructed state |
| `AddrMan.AddrMan.SwapRandom` | src/addrman.cpp:93-111 | the object's state becomes that of the model function |
| `AddrMan.AddrMan.Delete` | src/addrman.cpp:113-125 | the same, under the asserts of the source |
| `AddrMan.AddrMan.ClearNew` | src/addrman.cpp:127-140 | the same, on the bucket array |
| `AddrMan.AddrMan.LeaveNew` | src/addrman.cpp:144-152 | the loop over all 1024 buckets takes the entry out of every one it is in |
| `AddrMan.AddrMan.MakeTried` | src/addrman.cpp:142-188 | for a consistent manager all asserts hold and the state becomes that of the model function |
| `AddrMan.AddrMan.Evict` | src/addrman.cpp:160-183 | the occupant of the tried cell is back in its primary bucket |
| `AddrMan.AddrMan.FindBucket` | src/addrman.cpp:219-234 | the wrapped search from a random bucket returns -1 exactly when no bucket holds the entry |
| `AddrMan.AddrMan.Good_` | src/addrman.cpp:190-240 | computes Good of the model and keeps the invariant |
| `AddrMan.AddrMan.Place` | src/addrman.cpp:291-312 | computes Place of the model, of which PlaceTakes and PlaceLeaves say what it does |
| `AddrMan.AddrMan.Add_` | src/addrman.cpp:242-313 | computes Add of the model, of which AddUnknown and AddKnown say what it does, keeps the invariant and reports exactly whether the address was unknown |
| `AddrMan.AddrMan.Stochastic` | src/addrman.cpp:266-282 | the doubling loop decides exactly the model's condition for another reference |
| `AddrMan.AddrMan.Attempt_` | src/addrman.cpp:315-335 | computes Attempt of the model and keeps the invariant |
| `AddrMan.AddrMan.Connected_` | src/addrman.cpp:483-501 | computes Connected of the model and keeps the invariant |
| `AddrMan.AddrMan.SetServices_` | src/addrman.cpp:503-519 | computes SetServices of the model and keeps the invariant |
| `AddrMan.AddrMan.GetAddr_` | src/addrman.cpp:462-481 | computes GetAddr of the model, keeps the invariant, and returns what GetAddrKeeps says |
| `AddrManCheck.InvIsChecked` | src/addrman.cpp:385-459 | the invariant of every run implies everything Check_ tests |
| `AddrManCheck.CheckEntries` | src/addrman.cpp:393-417 | zero exactly when every entry passes; then the two collections are the tried and the "new" ids |
| `AddrManCheck.CheckTried` | src/addrman.cpp:424-436 | no error and nothing left over exactly when the tried table is exact |
| `AddrManCheck.CheckNew` | src/addrman.cpp:438-449 | no error and nothing left over exactly when the "new" table and all reference counts are exact |
| `AddrManCheck.Check_` | src/addrman.cpp:385-459 | returns 0 if and only if the manager is consistent and the key is not null; so it does after every run |
| `AddrManPersist.ListSizes` | src/addrman.h:315-334 | the two asserts of Serialize hold: the counters are the numbers of entries written |
| `AddrManPersist.NewLimit` | src/addrman.h:371-373 | a consistent manager never exceeds the limit on nNew that Unserialize checks |
| `AddrManPersist.TriedLimit` | src/addrman.h:375-377 | nor the limit on nTried |
| `AddrManRoundTrip.LoadNewAll` | src/addrman.h:379-396 | the first reading loop rebuilds the "new" entries, their addresses and positions, in writing order |
| `AddrManRoundTrip.LoadTriedAll` | src/addrman.h:399-418 | the second loop loses no tried entry and puts each into its own cell |
| `AddrManRoundTrip.LoadBucketsAll` | src/addrman.h:420-436 | the third loop rebuilds every cell of the "new" table and every reference count |
| `AddrManRoundTrip.NothingToPrune` | src/addrman.h:438-447 | pruning removes nothing when every entry has a place |
| `AddrManPersist.FinishedInv` | src/addrman.h:351-454 | the loaded manager is consistent |
| `AddrManPersist.RoundTrip` | src/addrman.h:301-454 | for every consistent manager, Unserialize of what Serialize wrote gives the same addresses, tables, cells and counts up to a bijective renumbering of ids, and consumes the stream |
| `AddrManFile.NeverBroken` | src/addrman.h:351-454 | for every stream, well formed or not, Unserialize returns or throws and trips no assert |
| `AddrManAnyStream.LoadedConsistentIff` | src/addrman.h:351-454 | for every stream that loads, the manager is consistent if and only if neither count is negative, no entry that stays shares its address with another entry read, and the times of the entries that stay are possible |
| `AddrManAnyStream.DistinctIsConsistent` | src/addrman.h:351-454 | a stream that loads, with counts that are not negative, no address twice and possible times, gives a consistent manager |
| `AddrManAnyStream.SameRecordTwice` | src/addrman.h:380-397 | one record twice: for all hashes it loads into an inconsistent manager |
| `AddrManAnyStream.PrunedIff` | src/addrman.h:438-449 | pruning never fails, and restores the invariant exactly when no staying entry has a namesake and times are possible |
| `AddrManOldFormat.OldFormatRebuilds` | src/addrman.h:379-397 | a stream of another format or bucket count: every "new" entry is read as stored, and of the entries whose own source selects one cell exactly the first gets it |
| `AddrManFile.Serialize` | src/addrman.h:301-348 | the loops write exactly the stream of the model, and their asserts hold |
| `AddrManFile.Unserialize` | src/addrman.h:351-454 | the loops compute exactly the model's result, or throw exactly when it does |
| `Mempool.SizeCoversWeight` | src/policy/policy.cpp:215-218 | the virtual size is the least whose fourfold covers the weight and the signature operations |
| `Mempool.AncTransitive` | src/txmempool.cpp:169-232 | ancestors of ancestors are ancestors |
| `Mempool.AncLeast` | src/txmempool.cpp:169-232 | they are the least: every set that holds the parents and with each member its parents holds all ancestors |
| `Mempool.AncestorCountGrows` | src/miner.cpp:428-431 | a dependant has strictly more ancestors than what it depends on |
| `Packages.CoversLess` | src/miner.h:118-132 | subtracting an included ancestor keeps a modified entry at or above the sum over its missing ancestors, and keeps exact size, signature operations and fees exact |
| `Packages.CoversFresh` | src/miner.cpp:394-399 | a new modified entry, made from the full ancestor totals, is at or above that sum too, and exact if no other ancestor was included before |
| `Packages.SecondFeeIsPlain` | src/miner.h:124-128 | the fees left of a package after two of its ancestors got in are right if and only if the second has no prioritised fee |
| `Packages.UpdatePackagesForAdded` | src/miner.cpp:382-407 | afterwards every modified entry bounds its missing ancestors (exactly, if it did before), and exactly the dependants of what was added are modified |
| `Packages.SortForBlock` | src/miner.cpp:426-435 | a permutation of the package in order of ancestor count |
| `Packages.SortedIsTopological` | src/miner.cpp:426-435 | in that order every ancestor of a member is in the block or earlier |
| `Miner.AppendOk` | src/miner.cpp:356-380 | adding a new transaction whose ancestors are in and that fits keeps order, uniqueness, counters and limits |
| `Miner.RoomForPackage` | src/miner.cpp:270-283 | a package within its modified totals leaves room for all its members' weight and signature operations |
| `Miner.BlockAssembler.AddToBlock` | src/miner.cpp:356-380 | appends the transaction and keeps the block invariant |
| `Miner.BlockAssembler.TestForBlock` | src/miner.cpp:304-354 | succeeds exactly when the transaction is final and fits every limit; only a failure can finish the block, and only near a limit or after more than 50 tries there |
| `Miner.BlockAssembler.AddPriorityTxs` | src/miner.cpp:577-657 | whoever could have come earlier, all parents being in, has no higher priority than what did; all but the last chosen are free and end within the priority area; the block stays valid; and it ends only with a transaction that leaves the area, with a block nearly full, or when every entry of the pool is in, waits for a parent, or is inadmissible or too big for what is left |
| `Miner.BlockAssembler.TestPackageTransactions` | src/miner.cpp:285-302 | true exactly when every member is admissible and, if sizes are counted, the package fits |
| `Miner.BlockAssembler.AddPackage` | src/miner.cpp:557-573 | the sorted package is added whole and the modified entries stay bounds, exact where they were exact |
| `Miner.EveryPackageFits` | src/miner.cpp:270-302 | while the whole pool fits and pays, every package still missing passes the fee test and both package tests |
| `Miner.BlockAssembler.TryPackage` | src/miner.cpp:517-573 | one candidate: too cheap, no room or refused exactly as its totals and members say, and then nothing changes; otherwise its missing ancestors and it are added |
| `Miner.BlockAssembler.AddPackageTxs` | src/miner.cpp:447-575 | terminates for every pool and every order of candidates, failed and re-entering packages included, and keeps the block valid; it ends on a candidate that is too cheap, or after more than 1000 candidates in a row without room in a block nearly full, or else every candidate is in the block or its package failed one of the two tests at some block of the run, so that none left out would pass them with its full ancestor totals at the end |
| `Miner.TurnedAwayForGood` | src/miner.cpp:270-302 | a package that failed a test at any block of the run would fail it, with its full ancestor totals, at the final block |
| `Miner.LoneFits` | src/miner.cpp:270-302 | without in-pool parents these tests are on the transaction alone |
| `Miner.BlockAssembler.CreateNewBlock` | src/miner.cpp:133-200 | from any earlier state: no transaction twice, every in-pool parent earlier, weight, signature operations and size below their limits, all admissible, fees exact; nothing left out when the whole pool fits, is admissible and pays; unless it stopped on a cheap candidate or gave up near a full block, no transaction without in-pool parents that is admissible and would still fit is left out |
| `PartialMerkle.ExtractSound` | src/merkleblock.cpp:96-132 | at any node, for any bits and hashes: if the hash is the real one, every match is a real leaf at its index, or two pairs collide |
| `PartialMerkle.Sound` | src/merkleblock.cpp:96-181 | whatever tree is received, if it yields the root of a real list of that length, every reported txid is the one at its index, or two pairs collide |
| `PartialMerkleFormat.AcceptsIff` | src/merkleblock.cpp:96-181 | a tree is accepted if and only if its count is in range and it spells out, left before right, a tree of the right shape in which only leaves are matched and no two siblings have one hash, with no hash and no whole byte of flags left over |
| `PartialMerkleFormat.HashesDetermined` | src/merkleblock.cpp:174-179 | two accepted trees with one count, one sequence of bits and one root have the same hashes, or two pairs collide |
| `PartialMerkleFormat.CalcHashIsLevel` | src/merkleblock.cpp:61-76 | the hash of a node is that of the Merkle tree built level by level from left to right |
| `PartialMerkleFormat.RootIsMerkleRoot` | src/merkleblock.cpp:61-76 | the root is the root of that tree |
| `PartialMerkleFormat.LastOfThree` | src/merkleblock.cpp:78-94 | three transactions, the last matched: the bits, the hashes and the root, written out |
| `PartialMerkle.SiblingsDiffer` | src/merkleblock.cpp:118-123 | in a tree of distinct txids two siblings never have one hash, unless pairs collide: the CVE-2012-2459 test rejects no honest tree |
| `PartialMerkleRoundTrip.BuildThenExtract` | src/merkleblock.cpp:78-132 | extraction undoes building at every node, wherever its bits and hashes lie, or pairs of the full tree collide |
| `PartialMerkleRoundTrip.BuildCounts` | src/merkleblock.cpp:78-94 | at most one hash per leaf, and exactly twice the hashes less one bits plus one per single-child node passed |
| `PartialMerkleRoundTrip.HashesPerMatch` | src/merkleblock.h:39-40 | the documented bound: at most one plus matches times height hashes |
| `PartialMerkleRoundTrip.Pack` | src/merkleblock.h:100-103 | the packing loop; unpacking gives the bits back with zero padding |
| `PartialMerkleRoundTrip.BitIsPower` | src/merkleblock.h:100-103 | flag k of a byte is worth 2^k |
| `PartialMerkleRoundTrip.RoundTrip` | src/merkleblock.cpp:134-181 | build, pack, unpack, extract gives the full root and exactly the matched txids and indices in order, or a collision |
| `PartialMerkleRoundTrip.FlagBitsBound` | src/merkleblock.h:47 | the documented bound of 2N-1 flag bits holds if and only if no match lies under a single-child node |
| `PartialMerkleRoundTrip.FlagBitsBoundFails` | src/merkleblock.h:47 | three transactions, the last matched: four bits for two hashes |
| `PartialMerkleSize.TreeCounts` | src/merkleblock.cpp:78-94 | the exact numbers of hashes and flag bits, from the list length and the mask alone |
| `PartialMerkleSize.SizeBound` | src/merkleblock.h:32-38 | for every list and mask, the documented guarantee of 10 + ceil(32.25 N) bytes holds if and only if the flag bytes beyond those for 2N-1 bits fit where the length prefixes are shorter than three bytes |
| `PartialMerkleSize.SizeBoundInBlocks` | src/merkleblock.h:32-38 | for lists that extraction accepts: if and only if there are at most 2016 flag bits or the bits beyond 2N-1 fit into the last byte |
| `PartialMerkleSize.AllMatchedCounts` | src/merkleblock.cpp:78-94 | with every transaction matched, N is their number and each level of odd width costs one more bit |
| `PartialMerkleSize.SizeBoundFails` | src/merkleblock.h:32-38 | 1025 transactions, all matched: 33068 bytes against 33067 |
| `PartialMerkleTree.TreeHeight` | src/merkleblock.cpp:137-140 | the loop finds the least height with one node |
| `PartialMerkleTree.AnyBelow` | src/merkleblock.cpp:80-82 | whether a match lies under a node |
| `PartialMerkleTree.PartialMerkleTree.TraverseAndBuild` | src/merkleblock.cpp:78-94 | appends exactly the bits and hashes of the node |
| `PartialMerkleTree.PartialMerkleTree.TraverseAndExtract` | src/merkleblock.cpp:96-132 | advances both cursors, sets fBad and reports matches exactly as the specification |
| `PartialMerkleTree.PartialMerkleTree.ExtractMatches` | src/merkleblock.cpp:150-181 | returns the specified root or zero, and the matches in order |
| `MerkleRoot.AddLeaf` | src/consensus/merkle.cpp:65-90 | one leaf joins the pending hashes: for every set bit of the count, that of the last full subtree of this size; twins ended by the leaf are flagged, and the siblings of the followed leaf are collected |
| `MerkleRoot.Sweep` | src/consensus/merkle.cpp:91-127 | the final sweep completes the right edge of the tree to its root and the branch to its end; count stays within 32 bits |
| `MerkleRoot.MerkleComputation` | src/consensus/merkle.cpp:46-131 | for every list of up to 2^31 leaves the one-pass computation gives the root and the branch of the tree built level by level, and sets the flag if and only if two full subtrees side by side have one hash |
| `MerkleUnique.SameTop` | src/consensus/merkle.cpp:9-43 | two lists with one hash as trees of one height are the same, or one of them is flagged, or two pairs collide |
| `MerkleUnique.RootDeterminesList` | src/consensus/merkle.cpp:35-42 | what the flag is for: among lists of one height that are not flagged, a root belongs to one list, or two pairs collide |
| `MerkleUnique.HeightsMatter` | src/consensus/merkle.cpp:35-42 | across heights it does not: every list of at least two has the root of the shorter list of its pairs' hashes |
| `MerkleUnique.TwoUnflagged` | src/consensus/merkle.cpp:35-42 | two lists with one root, neither flagged, whatever the hash function |
| `CheckQueueSafety.BatchFits` | src/checkqueue.h:105-117 | the batch size is at least one and never more than the queue holds |
| `CheckQueueSafety.TakeBackAll` | src/checkqueue.h:111-117 | the batch and what remains are exactly the queue |
| `CheckQueueSafety.ExecuteKeeps` | src/checkqueue.h:118-125 | executing a check, or skipping it after a failure, keeps the accounts and verdicts |
| `CheckQueueSafety.ReportKeeps` | src/checkqueue.h:80-89 | reporting a batch keeps nTodo equal to what is queued or in flight |
| `CheckQueueSafety.HeadKeeps` | src/checkqueue.h:91-119 | waiting, returning or taking a batch keeps the invariant; a result returned is truthful |
| `CheckQueueSafety.AddKeeps` | src/checkqueue.h:149-161 | Add with its notifications keeps the invariant |
| `CheckQueueSafety.NextKeeps` | src/checkqueue.h:69-161 | every step of every thread keeps the invariant, and every result returned is truthful |
| `CheckQueueSafety.RunSafe` | src/checkqueue.h:69-161 | over all interleavings of any number of workers: Wait returns true only if every check added since the last Wait ran and passed, false only if one ran and failed |
| `CheckQueueSafety.SomebodyWorks` | src/checkqueue.h:80-104 | no lost wake-up: while the master sleeps unnotified, some worker holds unreported work |
| `CheckQueueWakeups.RunAttended` | src/checkqueue.h:149-161 | over all interleavings: while checks are queued and some worker is blocked, some worker is woken, entering or busy |
| `CheckQueueWakeups.BatchIsShare` | src/checkqueue.h:105-111 | the batch is one check, or the largest number within nBatchSize and within an equal share among the threads that may help |
| `CheckQueueWakeups.FailureIsPassedOn` | src/checkqueue.h:118-119 | a batch taken after a recorded failure starts as failed |
| `CheckQueueWakeups.FailureStopsWork` | src/checkqueue.h:121-124 | no check of a failed batch is executed any more |
| `CheckQueueProgress.WorkLowers` | src/checkqueue.h:68-126 | every step a thread takes on its own lowers a measure of the work left |
| `CheckQueueProgress.WorkBounded` | src/checkqueue.h:68-126 | over any run without new checks, the steps of threads are at most the measure, plus one for each spurious wake-up and three for each new worker |
| `CheckQueueProgress.NeverStuck` | src/checkqueue.h:68-126 | while the master is in Wait some thread can take a step |
| `CheckQueueProgress.WaitReturns` | src/checkqueue.h:68-126 | a run of the threads' own steps ends within the measure, and only with the master outside Wait |
| `CheckQueueProgress.RunSettled` | src/checkqueue.h:68-126 | in every state of every run nobody is left holding the lock |
| `ArithUint.BaseUint.AddAssign` | src/arith_uint256.h:135-145 | the carry loop adds modulo 2^(32*width), for every width; no 64-bit overflow |
| `ArithUint.BaseUint.SubAssign` | src/arith_uint256.h:147-151 | subtracts modulo 2^(32*width) |
| `ArithUint.BaseUint.Increment` | src/arith_uint256.h:173-180 | adds one modulo 2^(32*width), stopping at the first limb that does not wrap |
| `ArithUint.BaseUint.Decrement` | src/arith_uint256.h:190-197 | subtracts one modulo 2^(32*width), stopping at the first limb that does not wrap |
| `ArithUint.BaseUint.Complement` | src/arith_uint256.h:69-75 | 2^(32*width) - 1 less the value |
| `ArithUint.BaseUint.Negate` | src/arith_uint256.h:77-84 | the negative modulo 2^(32*width) |
| `ArithUint.BaseUint.MulWordAssign` | src/arith_uint256.cpp:56-66 | multiplies by a 32-bit word modulo 2^(32*width) |
| `ArithUint.BaseUint.MulRow` | src/arith_uint256.cpp:73-80 | one row adds the shifted multiple, up to a multiple of 2^(32*width) |
| `ArithUint.BaseUint.MulAssign` | src/arith_uint256.cpp:68-82 | the product modulo 2^(32*width) when the operands are different objects; zero when they are the same object |
| `ArithUint.BaseUint.ShiftLeft` | src/arith_uint256.cpp:21-37 | multiplies by 2^shift modulo 2^(32*width), for every shift |
| `ArithUint.BaseUint.ShiftRight` | src/arith_uint256.cpp:39-54 | divides by 2^shift, rounding down, for every shift |
| `ArithUint.BaseUint.Bits` | src/arith_uint256.cpp:172-184 | the position of the highest set bit, zero exactly for zero |
| `ArithUint.BaseUint.DivBit` | src/arith_uint256.cpp:99-104 | one round decides a quotient bit and keeps dividend = quotient * divisor + rest |
| `ArithUint.BaseUint.DivAssign` | src/arith_uint256.cpp:84-107 | the exact floor quotient; division by zero is refused exactly for zero, with the target already cleared |
| `ArithUint.BaseUint.CompareTo` | src/arith_uint256.cpp:109-119 | the order of the values |
| `ArithUint.BaseUint.AssignU64` | src/arith_uint256.h:88-95 | the value becomes the 64-bit number |
| `ArithUint.BaseUint.GetLow64` | src/arith_uint256.h:245-249 | the value modulo 2^64 |
| `CompactModel.EncodeParts` | src/arith_uint256.cpp:225-245 | both asserts of GetCompact hold for every 256-bit number; size, mantissa and sign can be read back from the word |
| `CompactModel.ShapeFits` | src/arith_uint256.cpp:225-241 | the size and mantissa chosen bracket the number to one unit in the last place |
| `CompactModel.FitsUnique` | src/arith_uint256.cpp:225-241 | no other size and mantissa in normal form do |
| `CompactModel.RoundsDown` | src/arith_uint256.cpp:204-245 | SetCompact after GetCompact never exceeds the number and loses at most one part in 2^15 |
| `CompactModel.ExactBelow` | src/arith_uint256.cpp:204-245 | below 2^23 nothing is lost |
| `CompactModel.Greatest` | src/arith_uint256.cpp:204-245 | GetCompact gives the greatest compact value not above the number |
| `CompactModel.Monotone` | src/arith_uint256.cpp:225-245 | rounding keeps the order of numbers |
| `CompactModel.EncodeMonotone` | src/arith_uint256.cpp:225-245 | so do the compact words themselves |
| `CompactModel.Idempotent` | src/arith_uint256.cpp:204-245 | a second round trip changes nothing |
| `CompactModel.RoundTrip` | src/arith_uint256.cpp:204-245 | GetCompact after SetCompact returns the word if and only if it is in normal form |
| `CompactModel.OverflowExact` | src/arith_uint256.cpp:218-221 | the overflow flag is set exactly when mantissa * 256^(size-3) is at least 2^256 |
| `Compact.SetCompact` | src/arith_uint256.cpp:204-223 | the value modulo 2^256, with the negative and overflow flags exact |
| `Compact.GetCompact` | src/arith_uint256.cpp:225-245 | the compact form of the value, computed with shifts; both asserts hold |
| `Compact.GetBlockProof` | src/chain.cpp:150-163 | floor(2^256 / (target + 1)) for every valid nonzero target, zero otherwise |
| `Compact.NotAllOnes` | src/chain.cpp:158-162 | no target is 2^256 - 1, so target + 1 never wraps to zero |
| `SkipList.ClearsLowest` | src/chain.cpp:99-100 | n & (n - 1) clears exactly the lowest set bit |
| `SkipList.FewSteps` | src/chain.cpp:103-137 | from any height below 2^k the rule of GetAncestor reaches any lower height within k * k steps |
| `SkipList.StepDown` | src/chain.cpp:119-135 | every step lowers the number of steps left, measured by the highest bit in which the heights differ and the bits set below it |
| `Chain.BlockIndex.constructor` | src/chain.cpp:144-148 | a new entry with BuildSkip has a skip link to an ancestor |
| `Chain.BlockIndex.WalkTwice` | src/chain.cpp:113-137 | an ancestor's ancestor is the ancestor at that height |
| `Chain.BlockIndex.GetAncestor` | src/chain.cpp:113-142 | for every height the skip-list walk returns what walking pprev returns, in at most k * k steps below height 2^k; null outside; its assert holds |
| `Chain.ActiveChain.ContainsMeans` | src/chain.h:461-464 | a block is contained exactly when it is an ancestor of the tip |
| `Chain.ActiveChain.NextFollows` | src/chain.h:466-472 | Next is the contained child, and null exactly for the tip and for blocks outside |
| `Chain.ActiveChain.SetTip` | src/chain.cpp:41-51 | after any SetTip the vector is exactly the ancestor list of the tip, although the loop stops early |
| `Chain.ActiveChain.FindFork` | src/chain.cpp:81-90 | the highest common ancestor, or null when there is none |
| `Chain.ActiveChain.GetLocator` | src/chain.cpp:53-79 | ancestors from the start strictly down to genesis, eleven steps of one and then doubling ones; with more than 12 entries, 2^(entries-12) is below the height |
| `RollingBloom.WipeIs` | src/bloom.cpp:257-265 | the mask clears a cell exactly when it holds the given generation |
| `RollingBloom.Window` | src/bloom.h:113-114 | the last 2*nEntriesPerGeneration + 1 inserts are kept, and none older than 3 generations |
| `RollingBloom.LastElements` | src/bloom.cpp:223-224 | hence every one of the last nElements keys |
| `RollingBloom.RollingBloomFilter.CellOf` | src/bloom.cpp:269-273 | a hash selects the bit by its low six bits and one of the pairs by the rest |
| `RollingBloom.NextGeneration` | src/bloom.cpp:251-266 | wiping the cells that hold the reused number keeps every cell equal to its last setting |
| `RollingBloom.RollingBloomFilter.Insert` | src/bloom.cpp:249-277 | the history grows by the key and the cells are what the history says |
| `RollingBloom.RollingBloomFilter.Contains` | src/bloom.cpp:285-297 | true exactly when each cell of the key was set by a kept insert; so true for every kept key |
| `RollingBloom.RollingBloomFilter.Reset` | src/bloom.cpp:305-312 | an empty history |
| `CuckooCache.BitPackedFlags.BitSet` | src/cuckoocache.h:92-95 | exactly one flag of the packed sequence is set |
| `CuckooCache.BitPackedFlags.BitUnset` | src/cuckoocache.h:103-106 | exactly one flag is cleared |
| `CuckooCache.Cache.EpochCheck` | src/cuckoocache.h:264-296 | elements of the old epoch, and only those, become garbage when the epoch is full; there is room for one more current element |
| `CuckooCache.Cache.Insert` | src/cuckoocache.h:368-416 | the elements are those left by ageing and the new one, less at most one; with an open place the new one is in and no other is lost; unless it is the one dropped it belongs to the current epoch and so outlives the next ageing; the current epoch never exceeds epoch_size + max(1, epoch_size/16) |
| `CuckooCache.Cache.Displace` | src/cuckoocache.h:382-415 | the displacement loop conserves elements and epochs, leaves the table that the plain chain of evictions leaves, and drops nothing when a place is open |
| `CuckooCache.Cache.DisplacedEnds` | src/cuckoocache.h:382-415 | that chain ends at an open place, or gives up an element after exactly depth_limit evictions |
| `CuckooCache.Cache.FirstEviction` | src/cuckoocache.h:394-406 | the first eviction takes the second of the eight places |
| `CuckooCache.Cache.MovedAgain` | src/cuckoocache.h:391-406 | the element just put in is moved again at once if and only if the first of the evicted element's places that is its place is followed by the same place |
| `CuckooCache.Cache.NotMovedAgain` | src/cuckoocache.h:391-406 | never with eight different places |
| `CuckooCache.Cache.MovedAtOnce` | src/cuckoocache.h:391-406 | always where the first two places are one |
| `CuckooCache.Cache.Contains` | src/cuckoocache.h:443-453 | true exactly when the element stands at one of its places; always for an element that is not garbage; erasing takes at most that one |
| `Base58Bounds.EncodeFits` | src/base58.cpp:82 | n bytes never need more than n*138/100 + 1 base-58 digits, for every n |
| `Base58Bounds.DecodeFits` | src/base58.cpp:35 | n base-58 digits never need more than n*733/1000 + 1 bytes, for every n |
| `Base58.MulAdd` | src/base58.cpp:43-52 | the carry loop multiplies and adds in place; the carry assert holds whenever the result fits |
| `Base58.EncodeBase58` | src/base58.cpp:72-110 | leading zeros as ones, then the base-58 numeral of the rest; the assert holds |
| `Base58.DecodeBase58` | src/base58.cpp:22-70 | the bytes of the one word in the text, or failure, exactly as specified; the assert holds |
| `Base58.DecodeEncode` | src/base58.cpp:22-110 | decoding an encoding gives the bytes back, leading zeros included |
| `Base58.EncodeDecode` | src/base58.cpp:22-110 | encoding a decoding gives the text back without the spaces around it |
| `Base58.FourBytesEncoded` | src/base58.cpp:72-110 | one encoding worked out: a leading zero, then the most significant digit first |
| `Bech32Code.Superposition` | src/bech32.cpp:47-60 | the checksum state is linear in start state and symbols |
| `Bech32Code.SingleErrorDetected` | src/bech32.cpp:47-60 | changing one symbol changes the remainder |
| `Bech32Code.PolyModLoop` | src/bech32.cpp:47-60 | the loop with its five conditional terms computes the fold |
| `Bech32Code.ChecksumVerifies` | src/bech32.cpp:83-107 | appending the six symbols of CreateChecksum makes the remainder the constant of BIP 173 or BIP 350 |
| `Bech32Poly.MultiplesVanish` | src/bech32.cpp:34-61 | every multiple of the generator of BIP 173, multiplied out over GF(32), leaves the zero state |
| `Bech32Poly.Divide` | src/bech32.cpp:34-61 | long division: some multiple agrees with a word in all but its last six coefficients |
| `Bech32Poly.PolyModDivides` | src/bech32.cpp:34-61 | the checksum is zero if and only if the input, with a one in front, is divisible by the generator of BIP 173 |
| `Bech32Poly.AllOnesIsNotIt` | src/bech32.cpp:44-45 | the polynomial that the comment names is not divisible itself |
| `Bech32Field.TimesPower` | src/bech32.cpp:47-60 | multiplying a state by the symbol 2^k of GF(32) is doubling its coefficients k times |
| `Bech32Field.Period` | src/bech32.cpp:47-60 | doubling 31 times changes nothing |
| `Bech32Orbits.DoubleShift` | src/bech32.cpp:47-60 | feeding a zero symbol commutes with multiplication by the generator of GF(32) |
| `Bech32Orbits.SameNormal` | src/bech32.cpp:47-60 | states that are multiples of each other, the lowest coefficient aside, have one normal form |
| `Bech32Tables.PowersListed` | src/bech32.cpp:47-60 | the normal forms of x to x^88 modulo the generator are listed under their exponents, so all different |
| `Bech32Tables.GapsListed` | src/bech32.cpp:47-60 | so are those of the states from which up to 87 zeros lead to the difference of the two checksum constants, from each other and from the former |
| `Bech32Distance.TwoNonzero` | src/bech32.cpp:47-60 | a word with two symbols at most 88 apart leaves a nonzero remainder |
| `Bech32Distance.ThreeNonzero` | src/bech32.cpp:47-60 | so does one with three |
| `Bech32Distance.TwoNotGap` | src/bech32.cpp:47-60 | nor does a word of two symbols, at most 89 from the first to the end, leave the difference of the constants |
| `Bech32.EncodedVerifies` | src/bech32.cpp:89-107 | what Encode appends passes VerifyChecksum if and only if there is data or the first checksum symbol is zero |
| `Bech32.RoundTrip` | src/bech32.cpp:115-160 | Decode(Encode(hrp, v)) gives (hrp, v) back if and only if hrp is valid lower case, the string has at most 90 characters, and there is data or the first checksum symbol is zero; with a valid hrp and without that it is rejected |
| `Bech32.HrpExpandIs` | src/bech32.cpp:69-82 | the code of every character divided by 32, then zero, then every code modulo 32, as numbers |
| `Bech32Examples.VersionOne` | src/bech32.cpp:83-160 | hrp a and version 1 worked out: a1pez7ztp, which decodes |
| `Bech32Examples.NoData` | src/bech32.cpp:83-160 | hrp a without data worked out: a12uel5l, the shortest string of BIP 173, which is not accepted |
| `Bech32.CharsetIs` | src/bech32.cpp:12-13 | the characters for the 32 symbols |
| `Bech32.SingleSymbol` | src/bech32.cpp:84-92 | two words for one hrp that differ in one symbol never both verify: up to 89 symbols, and for any number if the first symbols are both zero or both nonzero |
| `Bech32.WrongCharacter` | src/bech32.cpp:127-160 | a valid string with one data character, the version included, replaced by one for another symbol is rejected |
| `Bech32.TwoSymbols` | src/bech32.cpp:84-92 | nor do two words of up to 89 symbols that differ in two |
| `Bech32.SingleHrpCharacter` | src/bech32.cpp:69-92 | two human-readable parts that differ in one character never both verify with the same symbols |
| `Bech32.WrongHrpCharacter` | src/bech32.cpp:127-160 | a valid string with one character of its human-readable part replaced by another letter is rejected |
| `Bech32.TwoWrongCharacters` | src/bech32.cpp:127-160 | a valid string with two data characters replaced, the version included, is rejected |
| `Bech32.ThreeSymbols` | src/bech32.cpp:84-92 | nor do two that differ in three, if the first symbols are both zero or both nonzero |
| `Bech32.ThreeWrongCharacters` | src/bech32.cpp:127-160 | a valid string with three data characters replaced is rejected, if the version does not change from zero or to zero |
| `Bech32.ThreeAcross` | src/bech32.cpp:84-92 | without that condition it is false: every word of 80 symbols that verifies with version 0 has a neighbour with version 20, three symbols away, that verifies |
| `Bech32.EncodeString` | src/bech32.cpp:115-124 | the loop builds the encoding, of which RoundTrip, HrpExpandIs and the examples say what it is |
| `Bech32.DecodeString` | src/bech32.cpp:127-160 | the loops decide and decode exactly as specified, and so reject what WrongCharacter and WrongHrpCharacter say |
| `ConvertBits.Convert` | src/bech32.h:45-66 | for bytes of any width: how many groups come out, how many padding or left-over bits there are, and failure exactly when a whole group or a nonzero bit is left over; for groups within their width: exactly which value comes out |
| `ConvertBits.PaddedRoundTrip` | src/bech32.h:45-66 | results of a padded conversion to narrower groups and an unpadded one back: the same groups, nothing left over |
| `ConvertBits.ThereAndBack` | src/bech32.h:45-66 | padded to narrower groups and back succeeds and is the identity, for all widths and so for 8 and 5 |
| `ConvertBits.BackAndThere` | src/bech32.h:45-66 | what is accepted without padding is canonical: padding the result gives the input back |
| `AuxPow.IndexWidth` | src/auxpow.cpp:163-186 | the expected index is the same in 32-bit and in any wider arithmetic, for heights up to 32 |
| `AuxPow.CheckMerkleBranchLoop` | src/auxpow.cpp:189-206 | the loop computes the recursive fold, which climbs to the root as ClimbReachesRoot says |
| `AuxPow.ClimbReachesRoot` | src/auxpow.cpp:189-206 | for every nonempty list and every i, climbing from leaf i with the siblings of its path and index i gives the root of the Merkle tree built level by level from left to right |
| `AuxPow.PathUnique` | src/auxpow.cpp:189-206 | along one path a root determines the leaf, or a colliding pair is exhibited |
| `AuxPow.AcceptedIffSlot` | src/auxpow.cpp:113-158 | for every script and chain, the accepted roots are exactly those that stand in a slot, a place that depends on the script alone |
| `AuxPow.SingleRootIff` | src/auxpow.cpp:122-138 | a script certifies a single root for a chain if and only if it has at most one slot |
| `AuxPow.HeaderSuffices` | src/auxpow.cpp:122-130 | with the merged-mining header there is at most one slot |
| `AuxPow.ScriptPins` | src/auxpow.cpp:113-158 | with at most one slot, the coinbase script determines root, branch length and index |
| `AuxPow.Unique` | src/auxpow.cpp:81-161 | two accepted proofs with one coinbase that has at most one slot certify the same aux block for a chain, or a colliding pair is exhibited |
| `AuxPow.OneCoinbase` | src/auxpow.cpp:98-101 | two accepted proofs with one parent root and branches of one length are about one coinbase transaction, or a colliding pair is exhibited |
| `AuxPow.OneBlockPerParent` | src/auxpow.cpp:81-161 | then they certify the same aux block if the coinbase has at most one slot, or node pairs or coinbase hashes collide |
| `AuxPow.CheckIffSlot` | src/auxpow.cpp:81-161 | a proof is accepted for a block if and only if it is at index 0 of the parent, the parent is of another chain where that is asked for, the branch has at most 30 hashes, the coinbase leads to the parent root, and some slot of the script holds the root, size and nonce that go with the block's branch and index |
| `AuxPow.HonestProofAccepted` | src/auxpow.cpp:81-206 | honest mining is believed: for every full tree of aux blocks, the proof made of both Merkle branches and one commitment in the coinbase is accepted for the block at the expected index |
| `AuxPow.InitProofAcceptedIff` | src/auxpow.cpp:208-245 | the minimal proof of initAuxPow is accepted if and only if the chain may have that parent, the header does not occur in the block hash, and not every byte of the hash is 40 |
| `AuxPow.LegacyNotUnique` | src/auxpow.cpp:131-138 | a script without the header that has two slots: one proof certifies two different blocks, for every chain id but the parent's |
| `NetStream.FeedAppend` | src/net.cpp:686-736 | two reads in a row are one read of their bytes |
| `NetStream.CutsDoNotMatter` | src/net.cpp:686-736 | the messages parsed do not depend on how the stream is cut into reads |
| `NetStream.CompleteHolds` | src/net.cpp:796-811 | a complete message holds its data and nothing of the read-ahead allocation |
| `NetStream.ReadHeader` | src/net.cpp:765-794 | takes exactly the missing header bytes; refuses only headers that announce too much |
| `NetStream.ReadData` | src/net.cpp:796-811 | appends exactly the bytes that belong to the message |
| `NetStream.Receiver.ReceiveMsgBytes` | src/net.cpp:686-736 | for every chunk the outcome is that of feeding its bytes one by one; complete tells whether a message was finished |
| `NetStream.FramesParse` | src/net.cpp:2795-2822 | framed messages are received as sent |
| `NetStream.HeaderReads` | src/protocol.h:57-63 | start bytes, command, length modulo 2^32 and checksum are read back from a header as PushMessage fills it; it frames its data exactly up to the maximum length |
| `NetStream.PrefixParse` | src/net.cpp:686-736 | of any beginning of a stream of frames, the messages sent in full are held in order, and nothing else but the arrived part of the next |
| `NetStream.Sender.SocketSendData` | src/net.cpp:830-880 | whatever prefixes the socket accepts: bytes leave in order, nSendSize is the size of the queued buffers, the asserts hold, and a socket that takes everything empties the queue |
| `NetStream.Sender.PushMessage` | src/net.cpp:2795-2830 | builds the header from command and data and queues both in order, so that the bytes queued are the frames of all messages pushed, and keeps the queue consistent; sends at once only if nothing was waiting |
| `NetStream.Sender.Delivered` | src/net.cpp:2795-2830 | what the socket has taken, received in any pieces, is the messages sent in full and the part of the next one that has left; all of them once the queue is empty |

## Left out

- Coins: memory-usage accounting, the best-block hash, `SetBackend`, `GetPriority` and the compressed
  on-disk encoding of a record.
- Coins: the order in which a cache's hash map is traversed is any order.
- AddrMan: `Select_` and `GetChance` (probabilities and floating point), and `Clear` on a populated
  manager, which does not empty the id and address maps; runs start from the constructor.
- AddrMan: the stream is a sequence of typed items, so the byte layout of one item is not modelled; a
  wrong kind of item stands for a stream error.
- Check_: the default value that its address lookup inserts for a missing key is not modelled.
- Miner: the memory pool is a finite acyclic graph with exact ancestor totals; how it keeps those totals
  is not part of this model. Fee rates and package scores are left open, priorities are real numbers,
  and the coinbase and the fee split are arithmetic on the result.
- Miner: modified entries are bounds on size and signature operations; they are exact, fees included, when
  the whole pool fits, is admissible, pays and has no prioritised fee. That the first candidate that is too
  cheap is followed by none that pays rests on the order of scores, which is left open.
- MerkleComputation: more than 2^31 leaves, for which the 32-bit count would wrap before the top is reached,
  although the comment in the code gives 2^32.
- PartialMerkle: transaction counts are unbounded integers up to the size limit the code checks.
- CheckQueue: `fQuit` is carried but never set, as in the code.
- ArithUint: the bitwise operators, `getdouble`, hexadecimal text and the mixed 64-bit overloads.
- GetLocator: the step is an unbounded integer; the code's 32-bit step is exact below a height of 2^30.
- Chain: `FindEarliestAtLeast`, `GetMedianTimePast` and block-file bookkeeping.
- RollingBloom: the false-positive rate and the sizes computed from it in floating point; at least one
  word pair is assumed, without which the code divides by zero.
- CuckooCache: `setup` is given the logarithm of the size, which the code computes in floating point;
  concurrent erasure, whose flag updates commute.
- Base58: the 32-bit width of buffer sizes, Base58Check and address prefixes.
- ConvertBits: which values come out for bytes wider than a group; no caller has them.
- FewSteps: the bound is not the exact maximum; the comment in the code gives 110 steps for 2^18 blocks
  from simulations, where the theorem gives 324.
- Bech32: four wrong symbols, which BIP 173 says are detected within 89 symbols; and which changes of
  three symbols that also change the version from zero or to zero are accepted.
- AuxPow: scrypt and header hashing; a transaction and its hash are independent fields, so
  two transactions with one hash appear as an alternative in `OneBlockPerParent`.
- NetStream: the comparison of checksums on receipt, statistics, flow-control flags and everything else in
  the connection manager.
- HTTP, RPC, wallet, scripts, validation, difficulty adjustment and cryptography.
