# A model of the objc4 runtime's hard cores

This project models, in Dafny, the algorithms of objc4-818.2 that carry real invariants, and proves what they promise.

- **Reference counting with overflow to a side table** (`RefCount*.dfy`, `IsaWord.dfy`). An object's count is split between the top bits of its `isa` word, changed by compare-and-swap, and a side table under a lock. The model is a state machine whose steps are single loads, CASes (which may fail spuriously), lock operations and side-table accesses of any number of threads. It refines one atomic counter, touches no other bit of the `isa`, and every call that runs alone returns. `IsaWord` ties the field-level machine to the packed word: carry out of the word is overflow of `extra_rc`.
- **The perfect hash of the dyld shared cache** (`Hash64`, `Scramble`, `SearchSchedule`, `PerfectHash`, `StringTable`, `ClassTable`). From `lookup8` through the search for a collision-free hash to the string and class tables and their readers. The reader agrees exactly with the input.
- **DenseMap** (`NextPowerOf2`, `Probing`, `DenseTable`, `DenseMap`, `DenseMapRuns`). The open-addressed table with triangular probing, tombstones and purgeable zeros, as a class over an array of buckets, against a plain finite map.
- **Tagged pointers** (`TaggedPointerLayouts`, `TaggedPointer`): the codec in three layouts.
- **The inline reference count macro** (`InlineRefCount`), **the chained hook** (`ChainedHook`) and **category lists** (`ListArray`).

`KnownAnswers` fixes constants that general laws leave open, by values worked out step by step. `Bits` holds shifts, masks and exclusive or on natural numbers, `Pigeonhole` the counting argument behind "injective, hence onto". Words and addresses are 64-bit, table sizes and counters 32-bit where the source's are; the wrap-around is written out.

## Model

| member | source | states |
|---|---|---|
| `RefCountRuns.RunRefines` | objc4-818.2/runtime/objc-object.h:620-903 | Linearizability: every interleaving of any number of retains, tryRetains, releases, retainCounts and flag stores, at the level of single loads, CASes, lock operations and side-table accesses, is a run of one atomic counter; each call acts once between its invocation and its return and answers what the counter answers |
| `RefCountRuns.RetainsAndReleasesBalance` | objc4-818.2/runtime/objc-object.h:620-903 | After every step of every run extra_rc + side-table count + the lock holder's in-flight amount equals 1 plus the retains minus the releases that took effect on the live object |
| `RefCountRuns.DeallocatesOnce` | objc4-818.2/runtime/objc-object.h:776-903 | The isa is deallocating exactly when the count is zero, never leaves that state, and exactly one rootRelease answers "deallocate" on the way into it |
| `RefCountRuns.SideBitIsAccurate` | objc4-818.2/runtime/objc-object.h:620-948 | Whenever the lock is free has_sidetable_rc holds iff the side table is nonzero; a thread outside every call never holds the lock |
| `RefCountRuns.BorrowAlwaysSucceeds` | objc4-818.2/runtime/objc-object.h:811-887 | A release that found has_sidetable_rc under the lock always borrows exactly RC_HALF, so the "side table is empty after all" branch is dead, and the store after a borrow never makes the isa deallocating |
| `RefCountRuns.FaultsOnlyAfterDroppedTry` | objc4-818.2/runtime/objc-object.h:615-707 | No path of rootRelease, rootRetainCount or rootRetain without tryRetain unlocks a lock its thread does not hold; the caller of rootTryRetain does so exactly when the call returned by the branch of the next row |
| `RefCountRuns.TryDropsLockIffLost` | objc4-818.2/runtime/objc-object.h:615-707 | Over whole runs, exactly when the caller's lock is dropped: rootTryRetain leaves by that branch iff the isa it read is deallocating and an earlier store of the same loop failed at the full inline count |
| `RefCountRuns.TryDropsLockIff` | objc4-818.2/runtime/objc-object.h:663-674 | rootTryRetain leaves by the branch that drops its caller's lock iff it has sideTableLocked set and the isa it read is deallocating |
| `RefCountRuns.TrySetsLockedIff` | objc4-818.2/runtime/objc-object.h:675-692 | It sets sideTableLocked and stays in the loop iff, in the full variant, the inline count it read is at its maximum and its store fails |
| `RefCountRuns.TryReturnUnlocksIff` | objc4-818.2/runtime/objc-object.h:663-674 | The lock is its caller's when rootTryRetain returns, and is given away iff it returned by that branch |
| `RefCountRuns.NoFaultWhileAlive` | objc4-818.2/runtime/objc-object.h:615-707 | What a caller can ensure, first way: in no state of any run whose isa is not deallocating has any thread lost its lock |
| `RefCountRuns.NoFaultBelowOverflow` | objc4-818.2/runtime/objc-object.h:615-707 | Second way: no thread loses its lock in a run whose inline count has never been at its maximum |
| `RefCountRuns.NoDeadlock` | objc4-818.2/runtime/objc-object.h:620-948 | In every state of every run each thread that has not lost its lock can move, or the holder of the lock can |
| `RefCountFlags.RunKeepsLow` | objc4-818.2/runtime/objc-object.h:473-948 | Bit by bit below has_sidetable_rc: after every step of every run a bit of the isa is set iff it was at the start or a flag store has set it; no retain, release or borrow touches the class bits or the flags |
| `RefCountFlags.StepKeepsLow` | objc4-818.2/runtime/objc-object.h:473-948 | One step leaves everything below has_sidetable_rc alone, unless it is a flag store that wins: then the isa changes by exactly that bit |
| `RefCountFlags.AnsweredFlagIsSet` | objc4-818.2/runtime/objc-object.h:473-527 | Once a flag store has answered, its flag is set in every later state of the run |
| `RefCountProgress.RunAloneReturns` | objc4-818.2/runtime/objc-object.h:615-948 | From every state of every run, a call whose thread runs alone, with the lock free or its own and no spurious failures, returns within ten steps |
| `RefCountProgress.SoloStep` | objc4-818.2/runtime/objc-object.h:615-948 | Each such step brings the call nearer to its end, so no retry loop goes round without interference |
| `RefCountProgress.RunStaysInCall` | objc4-818.2/runtime/objc-object.h:473-948 | The operation that takes effect and answers in a call is the one that was called |
| `DroppedTryLock.CallerLockCanBeDropped` | objc4-818.2/runtime/objc-object.h:615-707 | Such a run exists for every width of extra_rc: rootTryRetain carries, loses its CAS, finds the object deallocating and drops the lock that belongs to its caller |
| `RefCountInvariant.NextKeepsInv` | objc4-818.2/runtime/objc-object.h:620-948 | One step of any thread keeps the inductive invariant: lock ownership at every program point, the in-flight amount, the side table a multiple of RC_HALF, the side bit, and what each thread may assume of the isa it has read |
| `RefCountRefinement.NextRefines` | objc4-818.2/runtime/objc-object.h:620-948 | One step of the machine is one step of the atomic counter, or invisible to it |
| `RefCountRefinement.DeallocatingIffZero` | objc4-818.2/runtime/objc-private.h:98-100 | isDeallocating (extra_rc == 0 and no side-table bit) holds exactly when inline, side-table and in-flight counts add up to zero |
| `AtomicCounter.CountIsConserved` | objc4-818.2/runtime/objc-object.h:620-903 | The counter is 1 plus effective retains minus effective releases |
| `AtomicCounter.ZeroIsForever` | objc4-818.2/runtime/objc-object.h:662-674 | A counter that has reached zero stays zero through any later retains and releases |
| `AtomicCounter.OneDeallocation` | objc4-818.2/runtime/objc-object.h:742-903 | In every run the number of releases answered "deallocate" is one if the counter is zero and none otherwise |
| `IsaWord.UnpackPack` | objc4-818.2/runtime/isa.h:60-144 | The isa fields survive packing into one word, so a CAS on words is a CAS on field records |
| `IsaWord.PackUnpack` | objc4-818.2/runtime/isa.h:60-144 | Every word is the packing of its own fields |
| `IsaWord.AddcIsExtraRcPlus` | objc4-818.2/runtime/objc-os.h:166-169 | addc of k * RC_ONE adds k to extra_rc alone and carries exactly when extra_rc overflows its field |
| `IsaWord.SubcIsExtraRcMinus` | objc4-818.2/runtime/objc-os.h:172-175 | subc of RC_ONE takes one from extra_rc alone and borrows exactly when extra_rc is zero |
| `IsaWord.RetainWordMatches` | objc4-818.2/runtime/objc-object.h:676-691 | The word rootRetain computes, with carry, RC_HALF left inline and the side bit set, is the packing of the fields so changed; RunStoresWords ties it to what the machine stores |
| `IsaWord.ReleaseWordMatches` | objc4-818.2/runtime/objc-object.h:793-802 | The word of the plain decrement is the packed record the state machine stores, and unpacks to it, so its test for deallocating is the machine's |
| `IsaWord.BorrowWordMatches` | objc4-818.2/runtime/objc-object.h:844-847 | The word of rootRelease's first store after a borrow is the packed record the state machine stores |
| `IsaWord.FlagWordMatches` | objc4-818.2/runtime/objc-object.h:483-491 | The flag stores test and set in the word the flag of the record, and a record that fits its word still does |
| `IsaWordRuns.RunFits` | objc4-818.2/runtime/objc-object.h:473-948 | In every run with a layout's RC_HALF and flags below has_sidetable_rc, after every step, the isa in memory and every isa a thread has read fit the layout's word, so the word lemmas apply to every test and store |
| `IsaWordRuns.RunStoresWords` | objc4-818.2/runtime/objc-object.h:473-948 | In every run, every change of the isa in memory is a compare-and-swap against the isa the thread has read, and the word it leaves is the one that the code computes from that word: the word of rootRetain, of the plain decrement, of the two stores after a borrow, or of a flag store |
| `IsaWordRuns.StepStoresWord` | objc4-818.2/runtime/objc-object.h:473-948 | The same for one step |
| `IsaWord.BorrowRetryWordMatches` | objc4-818.2/runtime/objc-object.h:850-862 | The word of rootRelease's second store after a borrow, with its overflow test, is the packed record the state machine stores |
| `IsaWord.LayoutsFillTheWord` | objc4-818.2/runtime/isa.h:60-144 | All four layouts of extra_rc and has_sidetable_rc fill their word from the top, with the source's RC_ONE and RC_HALF, which is at least 2, as the theorems above require |
| `Hash64.Mix64Bijective` | objc4-818.2/PrivateHeaders/objc-shared-cache.h:829-843 | mix64 is a bijection of the triples of 64-bit words: an explicit inverse undoes it on both sides |
| `Hash64.ShortKeysSeparate` | objc4-818.2/PrivateHeaders/objc-shared-cache.h:874-936 | For one level, two different keys of at most 23 bytes, even of different lengths, reach different final (a,b,c) states: an instance of the laws of the next two rows and the length byte |
| `Hash64.BlocksSeparate` | objc4-818.2/PrivateHeaders/objc-shared-cache.h:889-898 | Every byte of every 24-byte block counts: two keys with the same blocks before, different blocks at one place and the same rest reach different final states, for any level and any number of blocks |
| `Hash64.TailsSeparate` | objc4-818.2/PrivateHeaders/objc-shared-cache.h:901-936 | After the same blocks, two different tails of at most 23 bytes reach different final states |
| `KnownAnswers.Mix64Answer` | objc4-818.2/PrivateHeaders/objc-shared-cache.h:829-843 | One value of mix64, worked out line by line: the shift amounts, their directions and their order |
| `KnownAnswers.HashAnswer` | objc4-818.2/PrivateHeaders/objc-shared-cache.h:874-936 | One value of lookup8: the golden ratio, the byte order, the byte kept for the length, and the word returned |
| `Hash64.Lookup8` | objc4-818.2/PrivateHeaders/objc-shared-cache.h:874-936 | The block loop and the final switch compute the recursive definition of the hash over the key's little-endian words |
| `Scramble.Permute` | objc4-818.2/PrivateHeaders/objc-shared-cache.h:1062-1080 | The twenty in-place iterations compute the permutation function that the next rows are about |
| `Scramble.PermuteInjective` | objc4-818.2/PrivateHeaders/objc-shared-cache.h:1062-1080 | For every nbits up to 31, where the source's mask is defined, permute is injective on 0..2^nbits-1 (the statement also covers a 32-bit mask) |
| `Scramble.PermuteOnto` | objc4-818.2/PrivateHeaders/objc-shared-cache.h:1062-1080 | ... and onto, hence a permutation of that range |
| `Scramble.PermuteBound` | objc4-818.2/PrivateHeaders/objc-shared-cache.h:1062-1080 | Whatever goes in, the result is below 2^nbits |
| `Scramble.PermuteSpecZero` | objc4-818.2/PrivateHeaders/objc-shared-cache.h:1062-1080 | permute fixes zero |
| `KnownAnswers.PermuteAnswers` | objc4-818.2/PrivateHeaders/objc-shared-cache.h:1062-1080 | Values of permute worked out round by round: the four shift amounts and the number of rounds |
| `Scramble.Log2u` | objc4-818.2/PrivateHeaders/objc-shared-cache.h:1052-1058 | The least i with val <= 2^i |
| `Scramble.ScrambleGood` | objc4-818.2/PrivateHeaders/objc-shared-cache.h:1083-1094 | All 256 scramble values are below smax, and they are pairwise distinct once smax >= 256 |
| `Scramble.ScrambleInit` | objc4-818.2/PrivateHeaders/objc-shared-cache.h:1083-1094 | scrambleinit fills the table with permute(i) for the bits of smax |
| `PerfectHash.Builder.InitTab` | objc4-818.2/PrivateHeaders/objc-shared-cache.h:1101-1135 | TRUE iff no two keys share (a,b); then, and with complete set in any case, every key is threaded, once, into the list of its b, with exact lengths |
| `PerfectHash.Builder.HasTwin` | objc4-818.2/PrivateHeaders/objc-shared-cache.h:1117-1127 | The walk of one bucket list finds a key with equal (a,b) iff there is one among the keys already threaded |
| `PerfectHash.Builder.Walk` | objc4-818.2/PrivateHeaders/objc-shared-cache.h:1283-1309 | For one value i, the walk over the item's keys ends without a child iff all their slots are free |
| `PerfectHash.Builder.EraseOld` | objc4-818.2/PrivateHeaders/objc-shared-cache.h:1194-1203 | Exactly the slots holding a key of pb at its current value become free; no other slot changes |
| `PerfectHash.Builder.PlaceNew` | objc4-818.2/PrivateHeaders/objc-shared-cache.h:1208-1224 | Every key of pb is put on its slot iff all those slots are free, no occupied slot is overwritten, and otherwise it stops at the first one taken; rolling back it takes every slot, but places no key of the root |
| `PerfectHash.Builder.Apply` | objc4-818.2/PrivateHeaders/objc-shared-cache.h:1169-1226 | All or nothing, for paths of any length: success gives every b of the path its new value and places its keys with all others; failure, through the rollback, leaves tabh and every val_b as they were. For the one-edge paths to free slots that augment builds it never fails |
| `PerfectHash.MoveForth` | objc4-818.2/PrivateHeaders/objc-shared-cache.h:1189-1225 | One iteration forwards places the keys of its b and disturbs nothing off the path |
| `PerfectHash.MoveBack` | objc4-818.2/PrivateHeaders/objc-shared-cache.h:1189-1225 | One iteration of the rollback restores its b: its value, its keys' slots, and what they had displaced |
| `PerfectHash.SettlingEnd` | objc4-818.2/PrivateHeaders/objc-shared-cache.h:1189-1225 | After the rollback of a whole path both tables are what they were |
| `PerfectHash.Builder.Augment` | objc4-818.2/PrivateHeaders/objc-shared-cache.h:1249-1330 | Equal to the greedy specification: succeeds iff some value in 0..255 puts all of the item's keys on free slots, takes the least such value, changes only that item's val_b, and on failure changes neither tabh nor any val_b; tabq never grows past blen + 1 |
| `PerfectHash.Builder.Perfect` | objc4-818.2/PrivateHeaders/objc-shared-cache.h:1334-1368 | Mapping the bs in descending order of size: on success all keys have pairwise distinct final hashes; on failure some b had no value that puts its keys on free slots beside those already placed; a single key always succeeds |
| `PerfectHash.PlacedIsInjective` | objc4-818.2/PrivateHeaders/objc-shared-cache.h:1334-1368 | Keys recorded in tabh at their final hash have distinct final hashes |
| `PerfectHash.AllPlaced` | objc4-818.2/PrivateHeaders/objc-shared-cache.h:1334-1368 | When every b that has keys is mapped, the whole hash is perfect |
| `PerfectHash.Builder.InitNorm` | objc4-818.2/PrivateHeaders/objc-shared-cache.h:1139-1165 | Each key's a is the top log2(alen) bits and its b the low bits of its salted hash, both within range |
| `PerfectHash.Builder.FindHash` | objc4-818.2/PrivateHeaders/objc-shared-cache.h:1429-1519 | The search tries exactly what the schedule asks for; success leaves a perfect hash of the names under the salt of the next scheduled try; every try before it failed, for two names shared their coordinates or the greedy mapping got stuck; it gives up exactly at the try that ends the schedule; with a repeated name it reports neither success nor failure however many salts it tries |
| `SearchSchedule.DoublesInTime` | objc4-818.2/PrivateHeaders/objc-shared-cache.h:1465-1516 | Whatever the verdicts, at most 2048 + 4 - 1 tries go by before blen doubles, less what the two counters have already |
| `SearchSchedule.ReachesLargest` | objc4-818.2/PrivateHeaders/objc-shared-cache.h:1465-1516 | d doublings short of smax, the largest blen is reached within 2051 d tries and kept |
| `SearchSchedule.OnlyCollisions` | objc4-818.2/PrivateHeaders/objc-shared-cache.h:1473-1492 | While no salt gives distinct coordinates: a new salt each time, and blen doubles exactly at the 2048th failure |
| `SearchSchedule.OnlyStuck` | objc4-818.2/PrivateHeaders/objc-shared-cache.h:1495-1513 | While the coordinates are distinct but no mapping is found: a new salt each time, but exactly at the fourth failure the same salt again with twice the blen |
| `KnownAnswers.InitialBlenAnswers` | objc4-818.2/PrivateHeaders/objc-shared-cache.h:1372-1420 | The first blen at the two load limits, 0.6 and 0.8, and for the smallest sizes |
| `PerfectHash.MakePerfect` | objc4-818.2/PrivateHeaders/objc-shared-cache.h:1528-1566 | On success the capacity is between n and 4n and, for two or more names, the table is readable and separates them; failure means that the search got stuck with the largest blen at both sizes; a single name always gets one slot and a shift of 64; a repeated name never gets a verdict |
| `PerfectHash.ReaderMatchesBuilder` | objc4-818.2/PrivateHeaders/objc-shared-cache.h:193-198 | The index computed by the reader is, for each name, the slot the builder found; so it is injective on the names |
| `PerfectHash.IndexBound` | objc4-818.2/PrivateHeaders/objc-shared-cache.h:193-198 | For any string at all, in the table or not, the reader's index is below the capacity |
| `StringTable.StringHash.Write` | objc4-818.2/PrivateHeaders/objc-shared-cache.h:278-341 | On success every string's slot holds its offset and check byte, all other slots hold zero, all offsets fit 32 bits and the table fits the section; every error means what it says: the table does not fit, some offset does not, or the perfect hash failed at both sizes; no strings give a zeroed header; the shift by 64 that C does not define is reached iff there is exactly one string and its table fits |
| `StringTable.ReaderIsExact` | objc4-818.2/PrivateHeaders/objc-shared-cache.h:209-248 | getIndex finds a slot iff the key is one of the strings written, and that slot resolves to that string's address; the check byte rejects no member and empty slots match nothing |
| `StringTable.StringHash.Get` | objc4-818.2/PrivateHeaders/objc-shared-cache.h:226-248 | The same for one lookup on the written table |
| `StringTable.WriteOne` | objc4-818.2/PrivateHeaders/objc-shared-cache.h:325-337 | Writing one more string disturbs none of those written before |
| `StringTable.OffsetUndone` | objc4-818.2/PrivateHeaders/objc-shared-cache.h:329-335 | base + (address - base) is the address in 64-bit arithmetic, and the offset is zero only at base |
| `StringTable.StringHash.Fill` | objc4-818.2/PrivateHeaders/objc-shared-cache.h:325-337 | The last loop succeeds iff every offset fits 32 bits, and then every slot is as above |
| `StringTable.CheckByteTells` | objc4-818.2/PrivateHeaders/objc-shared-cache.h:209-220 | Which names the check byte tells apart: those whose lengths differ modulo 32 or whose first characters differ modulo 8 |
| `StringTable.Fits32Iff` | objc4-818.2/PrivateHeaders/objc-shared-cache.h:329-335 | The sign-extension test on an offset is true iff the offset is a signed 32-bit number |
| `StringTable.SizeIs` | objc4-818.2/PrivateHeaders/objc-shared-cache.h:252-257 | size() is the header, tab, the check bytes and the offsets of the table |
| `ClassTable.ClassHash.Write` | objc4-818.2/PrivateHeaders/objc-shared-cache.h:524-612 | On success every class name is a string of the table, every name's slot holds its class or its run of duplicates, the runs of different names are disjoint and inside duplicateOffsets, and the table fits the section; an error of size, offset or class list means that there is one; with no strings it succeeds only without classes, and with one string never |
| `ClassTable.ClassHash.WriteClass` | objc4-818.2/PrivateHeaders/objc-shared-cache.h:547-608 | One iteration: a name already done is skipped and nothing changes; otherwise its whole group is written and every other name keeps what it has |
| `ClassTable.ClassHash.WriteGroup` | objc4-818.2/PrivateHeaders/objc-shared-cache.h:558-607 | One class goes into the slot itself; several go, all of them and in order, into a fresh run at the end of duplicateOffsets; it reports too small a section iff the run does not fit, and an offset iff one does not |
| `ClassTable.ClassReaderIsExact` | objc4-818.2/PrivateHeaders/objc-shared-cache.h:426-474 | For every key, getClassHeaderAndIndex answers the number of given classes with that name, and getClassesAndHeaders returns each (class, header) pair exactly as often as it was given under that name; for a key that is no string of the table, nothing and 0 |
| `ClassTable.ClassReaderIsExactIff` | objc4-818.2/PrivateHeaders/objc-shared-cache.h:426-474 | The reader is exact for every key iff every string of the table names a class |
| `ClassTable.OfNamePairs` | objc4-818.2/PrivateHeaders/objc-shared-cache.h:558-606 | The group that the writer takes for a name holds each (class, header) pair as often as the input gives it under that name |
| `ClassTable.StringWithoutClass` | objc4-818.2/PrivateHeaders/objc-shared-cache.h:426-474 | For a string that names no class the reader reports one class at the table's own address |
| `ClassTable.SeenIffNonzero` | objc4-818.2/PrivateHeaders/objc-shared-cache.h:553-556 | The test clsOffset != 0 by which the writer skips a name is true exactly for names it has done |
| `DenseMapRuns.Replay` | objc4-818.2/runtime/llvm-DenseMap.h:142-379 | Every sequence of insert, assignment, erase, lookup, count, clear, reserve and compact on the table itself keeps its invariant and answers like a plain finite map: lookup with its zero default exactly, if every insertion of a nonzero value over a zero of the plain map finds the key stored; with no purgeable values every answer exactly, membership included. The sequence may have any length; what is bounded is the plain map, by the 3/4 * 2^30 entries a table can hold |
| `DenseMapRuns.RunAnswersAgree` | objc4-818.2/runtime/llvm-DenseMap.h:148-379 | In every such run lookup answers what a plain finite map answers; with no purgeable values so do count, insert and erase |
| `DenseMapRuns.RunAgrees` | objc4-818.2/runtime/llvm-DenseMap.h:148-379 | If every risky insertion of a run finds its key stored, the table is at every point the plain map without some purgeable entries |
| `DenseMapRuns.RunAgreesIff` | objc4-818.2/runtime/llvm-DenseMap.h:148-379 | ... and only if: one risky insertion on a purged key ends the agreement |
| `DenseMapRuns.KeysAmong` | objc4-818.2/runtime/llvm-DenseMap.h:148-379 | In every run at all the table's keys are among the plain map's |
| `DenseMapRuns.InsertAgreesIff` | objc4-818.2/runtime/llvm-DenseMap.h:266-277 | try_emplace keeps that agreement iff it does not insert a nonzero value for a key whose zero the plain map holds and the table has purged; a caller can check this with count |
| `DenseMapRuns.PurgeLosesKey` | objc4-818.2/runtime/llvm-DenseMap.h:640-695 | In a table of any size with key 1 stored as zero in the first bucket of key 2's path, that bucket is the one offered to key 2 |
| `DenseMapRuns.PurgeReached` | objc4-818.2/runtime/llvm-DenseMap.h:266-353 | That table is reached from a fresh map by map[1] = 0; after map[2] = 5 an insertion of key 1 succeeds and gives it a new value, where the plain map refuses it and keeps the zero |
| `DenseMapRuns.LookupsAreExact` | objc4-818.2/runtime/llvm-DenseMap.h:222-227 | A table that lacks only purgeable entries answers every lookup exactly |
| `DenseMapRuns.FromPairs` | objc4-818.2/runtime/llvm-DenseMap.h:782-786 | A map built with a reserve for n pairs takes n inserts without ever reallocating; it holds the first value of each key, but for purgeable entries, if no pair brings a nonzero value for a key that an earlier pair gave a purgeable zero, and exactly if nothing is purgeable |
| `DenseMaps.DenseMap.LookupBucketFor` | objc4-818.2/runtime/llvm-DenseMap.h:640-695 | Finds the key's bucket iff the key is stored, else the first reusable bucket on its probe path; it always ends before the corruption abort |
| `DenseMaps.ProbeNotExhausted` | objc4-818.2/runtime/llvm-DenseMap.h:687-694 | With one empty bucket the probe count never exceeds the number of buckets |
| `Probing.SlotsDistinct` | objc4-818.2/runtime/llvm-DenseMap.h:659-695 | For a power-of-two table no two of the first NumBuckets triangular probes meet |
| `Probing.SlotsCover` | objc4-818.2/runtime/llvm-DenseMap.h:659-695 | ... and they visit every bucket, exactly once |
| `Probing.SlotNext` | objc4-818.2/runtime/llvm-DenseMap.h:692-693 | Adding the growing step and masking moves from one triangular slot to the next |
| `DenseMaps.DenseMap.constructor` | objc4-818.2/runtime/llvm-DenseMap.h:768-770 | A fresh map is empty and valid, with room for the reserved entries |
| `DenseMaps.DenseMap.TryEmplace` | objc4-818.2/runtime/llvm-DenseMap.h:266-277 | Inserts iff the key is not stored. When the load tests ask for no rehash exactly one bucket changes, the first reusable one on the key's path; when they do, the table has the size they ask for and holds exactly the entries that are not purgeable and the new one; a stored key changes nothing. Keeps the invariant (power-of-two size >= 4, exact counters, load below 3/4, an empty bucket, no gap on any probe path). A new key needs a table that can be doubled or a load test that does not ask for it |
| `DenseMaps.DenseMap.Put` | objc4-818.2/runtime/llvm-DenseMap.h:343-353 | Assignment through operator[]: a stored key gets the value and nothing else changes; a new key as for try_emplace |
| `DenseMaps.DenseMap.Erase` | objc4-818.2/runtime/llvm-DenseMap.h:322-333 | Answers whether the key was stored. If not, nothing changes; if it was the last entry, the table is freed; otherwise exactly the key goes, with one more tombstone, in the same buckets, unless the rest fills less than 1/16 of more than 1024 buckets: then the table shrinks and its purgeable entries go too. The table never grows |
| `DenseMaps.DenseMap.Lookup` | objc4-818.2/runtime/llvm-DenseMap.h:222-227 | The stored value or the default |
| `DenseMaps.DenseMap.Contains` | objc4-818.2/runtime/llvm-DenseMap.h:182-185 | True iff the key is stored |
| `DenseMaps.DenseMap.Clear` | objc4-818.2/runtime/llvm-DenseMap.h:148-179 | Leaves the empty map. The buckets stay when there was nothing to clear, and when at least a quarter was in use or there are only four; otherwise the table gets the size that shrink_and_clear asks for, never a larger one |
| `DenseMaps.DenseMap.Compact` | objc4-818.2/runtime/llvm-DenseMap.h:311-320 | Frees an empty table; rehashes into grow(2 * entries), less than a quarter of the size, exactly if the table is more than 15/16 empty and has more than 1024 buckets, and then keeps exactly the entries that are not purgeable; leaves any other table untouched |
| `KnownAnswers.SparseAnswers` | objc4-818.2/runtime/llvm-DenseMap.h:311-320 | Where compact begins to shrink a table: above 1024 buckets and below 1/16 |
| `DenseMaps.DenseMap.Reserve` | objc4-818.2/runtime/llvm-DenseMap.h:142-146 | Does nothing if the table is large enough; else rehashes into exactly the reserved size and keeps exactly the entries that are not purgeable. Leaves 4 * n < 3 * NumBuckets for the n reserved |
| `DenseMaps.DenseMap.Grow` | objc4-818.2/runtime/llvm-DenseMap.h:840-855 | The new table holds exactly the entries that are not purgeable, has no tombstones and the requested size |
| `DenseMaps.DenseMap.MoveFromOldBuckets` | objc4-818.2/runtime/llvm-DenseMap.h:417-443 | Rehashing into empty buckets yields exactly the map of the old buckets without its purgeable entries |
| `DenseMaps.DenseMap.MakeRoom` | objc4-818.2/runtime/llvm-DenseMap.h:580-601 | Leaves the table alone, doubles it if the load would reach 3/4, or rehashes in place if at most 1/8 would be empty, each exactly then; a rehash keeps exactly the entries that are not purgeable. After it the table is below 3/4 with an empty bucket to spare |
| `DenseMaps.DenseMap.InsertIntoBucket` | objc4-818.2/runtime/llvm-DenseMap.h:560-621 | The pair is stored in the returned bucket; without a rehash no other bucket changes, with one exactly the purgeable entries go |
| `DenseMaps.DenseMap.ShrinkAndClear` | objc4-818.2/runtime/llvm-DenseMap.h:857-872 | Leaves an empty valid table: the same buckets if they already have the size asked for, else one of the size that a reservation for that size gives |
| `DenseMaps.DenseMap.InitEmpty` | objc4-818.2/runtime/llvm-DenseMap.h:395-404 | Every bucket empty, both counters zero |
| `DenseMaps.DenseMap.Init` | objc4-818.2/runtime/llvm-DenseMap.h:830-838 | An empty valid table of the size the entries need, or none |
| `DenseMaps.MinBucketsSize` | objc4-818.2/runtime/llvm-DenseMap.h:408-415 | Below 2^30 entries the reserved size is zero for no entries, else a power of two >= 4 with 4 * entries < 3 * size <= 8 * entries + 6 |
| `DenseMaps.ReserveHoldsIff` | objc4-818.2/runtime/llvm-DenseMap.h:408-415 | For every 32-bit number of entries the reserved size leaves room below the load limit iff there are fewer than 2^30: beyond, the product wraps around |
| `DenseMaps.ReserveLastsIff` | objc4-818.2/runtime/llvm-DenseMap.h:768-770 | A reserve lasts for that many insertions without any load test asking for more buckets iff it is below 3/4 * 2^30 |
| `DenseMaps.GrowDoublesIff` | objc4-818.2/runtime/llvm-DenseMap.h:840-845 | For every power-of-two size from 4 to 2^31, grow(2 * NumBuckets) doubles the table iff it has at most 2^30 buckets; at 2^31 it makes one of four |
| `DenseMaps.ShrinkFitsIff` | objc4-818.2/runtime/llvm-DenseMap.h:857-872 | For every number of entries up to 2^29, the table that shrink_and_clear makes has at least four buckets iff there are at most 2^28; beyond, the size wraps around to two |
| `DenseTable.EraseAt` | objc4-818.2/runtime/llvm-DenseMap.h:327-332 | A tombstone removes one key and opens no gap on any probe path |
| `DenseTable.PutTable` | objc4-818.2/runtime/llvm-DenseMap.h:580-621 | Writing a new key at the first reusable slot keeps keys unique and probe paths free of gaps |
| `DenseTable.LiveIsSize` | objc4-818.2/runtime/llvm-DenseMap.h:322-341 | The number of live buckets, which NumEntries counts, is the number of keys |
| `NextPowerOf2.NextPow2Least` | objc4-818.2/runtime/llvm-MathExtras.h:418-425 | The least power of two greater than A, or zero when it does not fit 32 bits |
| `TaggedPointer.MakeThenGet` | objc4-818.2/runtime/objc-internal.h:538-617 | For all three layouts, every tag 0..6 and 8..263, every word as payload, every permutation of 0..7 fixing 7 and every obfuscator zero on the tag bit (split layout: on the no-obfuscation mask): the result is tagged, and getTag, getValue and getSignedValue give back the tag and the payload truncated to 60 or 52 bits, zero- or sign-extended |
| `TaggedPointer.GetThenMake` | objc4-818.2/runtime/objc-internal.h:538-617 | The other direction: every tagged word has a valid tag and is what making a tagged pointer of its tag and value gives |
| `TaggedPointer.DecodeEncode` | objc4-818.2/runtime/objc-internal.h:493-529 | Decoding undoes encoding on every 64-bit word |
| `TaggedPointer.EncodeDecode` | objc4-818.2/runtime/objc-internal.h:493-529 | Encoding undoes decoding on every 64-bit word |
| `TaggedPointer.BasicTag` | objc4-818.2/runtime/objc-internal.h:484-489 | The search loop returns the tag that the permutation maps to the given one |
| `TaggedPointer.PermutationInverse` | objc4-818.2/runtime/objc-internal.h:480-489 | The table lookup and the search undo each other, and 7 stays 7 |
| `TaggedPointer.PackUnpack` | objc4-818.2/runtime/objc-internal.h:436-470 | In each layout a packed word gives back its tag and payload, and every word with the tag bit is made of its own tag and payload fields |
| `TaggedPointer.ObfuscatorShows` | objc4-818.2/runtime/objc-internal.h:493-529 | The encodings of one word under two obfuscators differ by exactly the exclusive or of the obfuscators, but for the words that the split layout leaves plain |
| `TaggedPointer.PackAnswers` | objc4-818.2/runtime/objc-internal.h:436-470 | One basic and one extended tag in each layout, bit by bit: where the tag and the payload lie |
| `InlineRefCount.CountIsExact` | objc4-818.2/runtime/objc-internal.h:1090-1148 | For a signed variable of any width, in every interleaving, the variable equals its start plus 2 per retain minus 2 per release plus 3 once marked, less the whole range for each wrap-around; the -2 to 1 CAS succeeds at most once and the variable is odd exactly from then on, even across a wrap-around |
| `InlineRefCount.NoWrapInRange` | objc4-818.2/runtime/objc-internal.h:1090-1148 | No step wraps around, and the count is exact, as long as no step leaves the range |
| `InlineRefCount.TryRetainNeedsReference` | objc4-818.2/runtime/objc-internal.h:1127-1140 | _tryRetain never succeeds at logical zero nor after the deallocation mark |
| `InlineRefCount.DisciplinedRunsNeverTrap` | objc4-818.2/runtime/objc-internal.h:1090-1148 | If retain and release are called only by holders of a reference, and there are never more references than the variable can count, no interleaving traps, retainCount is the number of references held, and a deallocating object has none; that deallocation starts is the next row |
| `InlineRefCount.DeallocationStarts` | objc4-818.2/runtime/objc-internal.h:1100-1125 | In such a run, if no block resurrects: once the last reference is gone and every call has returned, the mark is set and exactly one thread deallocates |
| `InlineRefCount.MisuseTraps` | objc4-818.2/runtime/objc-internal.h:1090-1148 | In any run at all, disciplined or not: after a release without a reference, a retain below zero references or a mark upon a verdict that is none, the process has trapped or that thread traps at its next step |
| `InlineRefCount.TrapsIff` | objc4-818.2/runtime/objc-internal.h:1090-1148 | Exactly when a step traps |
| `InlineRefCount.QuietRunHadNoMisuse` | objc4-818.2/runtime/objc-internal.h:1090-1148 | So a run at rest that has not trapped had no misuse: every release had a reference to give up |
| `InlineRefCount.SoloMeans` | objc4-818.2/runtime/objc-internal.h:1090-1148 | A call that nobody interrupts ends within six steps, and its effect on the variable, its answer, its trap or its deallocation is what it means for a count of 2 (references - 1), with the block's verdict on the last release |
| `InlineRefCount.QueryAnswers` | objc4-818.2/runtime/objc-internal.h:1127-1148 | _tryRetain answers yes exactly by taking a reference and no exactly when it reads logical zero or the mark; _isDeallocating answers what it read |
| `InlineRefCount.AnswersAfterMark` | objc4-818.2/runtime/objc-internal.h:1127-1148 | Once the mark is set, in every run and for good, _isDeallocating answers yes and _tryRetain no |
| `InlineRefCount.RetainFitsIff` | objc4-818.2/runtime/objc-internal.h:1091-1099 | The limit is exact: a retain leaves the number of references in the variable iff it is representable |
| `InlineRefCount.ClientKeepsInv` | objc4-818.2/runtime/objc-internal.h:1090-1148 | One disciplined step, or handing over a reference, keeps the count exact and at most one thread between the last release and its verdict |
| `ChainedHook.ChainIsComplete` | objc4-818.2/runtime/objc-private.h:1062-1082 | At every point of every interleaving of set() calls with distinct hooks and variables, following the variables from the current hook visits the hooks of exactly the finished calls, each once, newest first, and ends at the initial function |
| `ChainedHook.NextKeepsInv` | objc4-818.2/runtime/objc-private.h:1073-1081 | One load, store or CAS of one call keeps the chain intact for every reader |
| `ChainedHook.AloneAdvances` | objc4-818.2/runtime/objc-private.h:1073-1081 | A set() that runs alone, with no spurious failure, comes nearer to its end with each of at most four steps, and ends by replacing the very hook it has stored in its variable |
| `ListArray.ListArrayTT.AttachLists` | objc4-818.2/runtime/objc-runtime-new.h:1341-1377 | From the empty, single or array representation, the lists become the added ones followed by the earlier ones |
| `ListArray.AttachEach` | objc4-818.2/runtime/objc-runtime-new.h:1286-1377 | For any sequence of attachLists calls from the empty value: the lists are the latest batch followed by all earlier ones, iterating yields their concatenation, and count() is its length |
| `ListArray.LatestFirst` | objc4-818.2/runtime/objc-runtime-new.h:1341-1377 | What was attached up to batch j stays the tail of the lists through all later attachments |
| `ListArray.ListArrayTT.Traverse` | objc4-818.2/runtime/objc-runtime-new.h:1212-1307 | Iterating from begin to end yields the concatenation of the lists iff no list is empty; otherwise the iterator dereferences the end of the first empty one, whose number the model returns |
| `ListArray.Cursor.Advance` | objc4-818.2/runtime/objc-runtime-new.h:1235-1247 | operator++ drops exactly the first of the elements still to come |
| `ListArray.ListArrayTT.Count` | objc4-818.2/runtime/objc-runtime-new.h:1289-1298 | count() is the number of elements, in 32-bit arithmetic |
| `ListArray.ListArrayTT.DuplicateInto` | objc4-818.2/runtime/objc-runtime-new.h:1391-1404 | The copy has the same lists and shares no array with the original, which is unchanged |

## Where the code does not do what one would expect

- `rootTryRetain` runs with its caller holding the side-table lock. When its full variant carries, loses its CAS and then finds the object deallocating, it unlocks although the lock is its caller's (`DroppedTryLock.CallerLockCanBeDropped`). `RefCountRuns.TryDropsLockIffLost` says exactly when; a caller keeps its lock if it keeps the object alive (`NoFaultWhileAlive`) or the inline count below its maximum (`NoFaultBelowOverflow`); the run above, which does neither, shows that one of them is needed.
- `try_emplace` on a key whose zero value was purged reports an insertion that a plain map would refuse. `DenseMapRuns.InsertAgreesIff` gives the exact condition for one insertion, `RunAgreesIff` for a run; `PurgeReached` reaches the failure from a fresh map.
- A string that names no class is reported by the class table as one class at the table's own address (`ClassTable.StringWithoutClass`). The reader is exact for all keys iff there is no such string.
- A list with no elements makes the `list_array_tt` iterator dereference the list's end (`ListArray.ListArrayTT.Traverse`).
- The class table's `write` never sets `duplicateCount` to zero; the model starts from any count.
- `findhash` never ends on a list with a repeated name (`PerfectHash.Builder.FindHash`), and a single string's table always has one slot and a shift of 64, which C does not define (`PerfectHash.MakePerfect`, `StringTable.StringHash.Write`).
- DenseMap sizes are 32-bit. A table of 2^31 buckets doubles to four (`DenseMaps.GrowDoublesIff`), a reserve of 2^30 entries or more wraps around (`ReserveHoldsIff`), one of 3/4 * 2^30 or more does not last (`ReserveLastsIff`), and clearing a large table that holds more than 2^28 entries can leave two buckets (`ShrinkFitsIff`).

## Left out

- Side-table bodies: given by contract. `addExtraRC` adds, `subExtraRC(RC_HALF)` takes RC_HALF or nothing, neither overflows; the pinned state of a full side table is not modelled.
- Raw-pointer isa, `changeIsa`, custom retain/release, Swift dispatch, pointer authentication and weak memory orderings: the object stays nonpointer and memory is sequentially consistent.
- `rootRelease` with performDealloc: the message send of dealloc after the answer "deallocate" is not modelled, only the answer.
- PerfectHash.Builder.FindHash: tries at most `fuel` salts and otherwise answers that it ran out, because the code's own loop has no termination argument; the third outcome appears as NoVerdict in the table writers.
- PerfectHash.MakePerfect: not for more than 2^30 names, where twice the table size no longer fits 32 bits.
- StringTable.StringHash.Write: the header's layout in bytes and byteswap are left out; what C leaves undefined is reported as Undefined.
- ClassTable.ClassHash.Write: assumes that a class alone under its name lies at an even offset, the low bit being the mark of duplicates, strings stored at their recorded addresses, and fewer than 2^30 classes, so that count * 2 + 1 fits its 32-bit field; the protocol table, which is a simpler copy of the class table, is left out.
- DenseMaps.DenseMap.TryEmplace: not for a new key when the load test asks a table of 2^31 buckets to double; the code then rehashes into four.
- DenseMaps.DenseMap.Put: the same.
- DenseMaps.DenseMap.MakeRoom: the same.
- DenseMaps.DenseMap.InsertIntoBucket: the same.
- DenseMaps.DenseMap.Clear: not where a table of 2^31 buckets would be shrunk by more than 2^28 entries, a size that wraps around.
- DenseMaps.DenseMap.ShrinkAndClear: the same.
- DenseMaps.DenseMap.Reserve: fewer than 2^30 entries, beyond which the size wraps around.
- DenseMaps.DenseMap.Init: the same.
- DenseMaps.DenseMap.constructor: the same.
- DenseMapRuns.Replay: reservations below 3/4 * 2^30, so that the table can always be doubled.
- DenseMapRuns.FromPairs: below 3/4 * 2^30 pairs, where alone the reserve lasts.
- DenseMap copies, moves, swaps, iterators, pointer-stable buckets and SmallDenseMap: these would add easy members or storage layout only. Hash functions are parameters; a purgeable value is the zero value or nothing.
- InlineRefCount.TryRetainNeedsReference: _tryRetain's own addition is modelled as wrapping around at the top of the range, where C leaves a signed sum undefined. Retains made by the logic block are steps of its thread or of others.
- ListArray.ListArrayTT.AttachLists: fewer than 2^31 lists in all; lists are values, so aliasing between list objects and freeing of memory are not captured. validate() and tryFree are left out.
- ChainedHook.ChainIsComplete: sequential consistency; the acquire and release orderings of get and set are not modelled.
- TaggedPointer.MakeThenGet: registration of classes for tags and the raw-pointer value of constant tagged pointers are left out.
- Autorelease pools, weak tables, method caches, SafeRanges, AtomicQueue, markgc.cpp, lock wrappers and the public headers: bodies elsewhere, platform plumbing or file input and output.
