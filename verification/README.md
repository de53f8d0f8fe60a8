# A verified model of the Objective-C runtime's hard core

This project models, in Dafny, the parts of the Objective-C runtime (objc4-824,
with the block runtime libclosure-79) whose correctness does not show from any
one function, and proves what those parts promise:

- **Object reference counts.** Retain, release, tryRetain and retainCount on a
  non-pointer isa as a state machine: any number of threads, every
  interleaving, every failed exchange. `RetainRelease` is the machine on the
  fields of the isa, `RetainReleaseProofs` its invariant,
  `RetainReleaseTheorems` what every run guarantees, `RetainReleaseCalls` when a
  call may refuse, `RetainReleaseSolo` what a call does that nobody disturbs,
  `TryRetainLock` the one case where tryRetain loses its caller's lock. `IsaWord` and `IsaSteps` do the
  same steps on packed words with addc and subc, and prove every run equal;
  `SideTable` and `SideTableMachine` put the machine's side counter into the
  real side table, a DenseMap whose zeros may be purged.
- **DenseMap.** The open-addressed hash table with tombstones and purgeable
  values, as a class over an array that refines an ordinary map (`DenseTable`,
  `DenseMap`, `DenseMapRuns`), with its sizing (`PowerOfTwo`) and the coverage
  of its triangular probing (`Probing`, `Divisibility`, `Counting`).
- **The shared cache's precomputed tables.** Bob Jenkins' perfect-hash builder
  (`Permute`, `PerfectHashSpec`, `PerfectHashBuilder`) against the placement and
  the search that it carries out (`FirstFit`, `SaltSearch`), the reader's hash
  (`StringHash`), the bytes of the tables (`TableLayout`), the string table
  (`StringTable`) and the class table with duplicate names (`ClassTable`); `TableExamples` holds the inputs that these
  tables answer wrongly.
- **The block runtime.** Copy, release, `__block` forwarding and the recursive
  helpers over a heap of cells, with a global ownership invariant (`Blocks`,
  `BlockFrames`, `BlockRuntime`), when a count sticks (`BlockPeaks`), whole
  client runs (`BlockClients`) and the latching counters under concurrency
  (`Latching`).
- **Smaller protocols.** Address-ordered locks (`LockOrder`), the inline
  reference count macro (`InlineRefcount`), tagged pointers in three layouts
  (`TaggedPointers`), and the list arrays of class metadata (`ListArray`).

Words are natural numbers with explicit wrap-around; a shift by n multiplies or
divides by 2^n (`Bits`). Pointers are indices. A compare-and-swap may fail for
no reason, and memory is sequentially consistent. The string hash (`lookup8`)
is an arbitrary function of string and salt.

`dafny verify dfyconfig.toml` checks everything.

## What was found to be false

Each has a lemma at an input that fails and one that says exactly when the code
does what one expects.

- A perfect-hash table of one string has shift 64, and C++ leaves a 64-bit shift
  by 64 open. The builder takes 0 for the high part. The reader agrees if and
  only if its machine's shift leaves nothing in the low 32 bits
  (`StringTable.OneStringTable`; where it leaves something,
  `TableExamples.OneStringOutside`); with two strings or more it always agrees.
- A string stored at the table's own address gets offset 0 and is not found
  (`TableExamples.OwnAddressLost`); every other stored string is
  (`StringTable.GetIndexExact`).
- A class name with a single class at an odd distance from the table is answered
  as a duplicated name (`TableExamples.OddClassLost`), and a string that is no
  class's name is answered with the table's own address
  (`TableExamples.NoClassFound`); every other name is answered right
  (`ClassTable.LookupExact`).
- `rootRetain(tryRetain)`, fast or full, can return with its caller's side-table
  lock dropped if and only if the object is alive and has no counts in the side
  table (`TryRetainLock.TryRetainLosesLockIff`; the losing run is
  `TryRetainLock.LosesLockEither`).
- Iterating a `list_array_tt` visits exactly its elements if and only if no list
  in it is empty (`ListArray.IterationExact`; one empty list is
  `ListArray.EmptyListBreaks`).

## Model

| member | source | states |
|---|---|---|
| `IsaWord.HalfOfRange` | objc4-824/runtime/isa.h:57-146 | in each of the four layouts extra_rc's range is twice RC_HALF, which is what the counting machine needs |
| `IsaWord.AddcAddsToExtraRc` | objc4-824/runtime/objc-os.h:165-169 | adding n * RC_ONE to the packed word adds n to extra_rc and touches no other field, and the carry is set exactly when extra_rc would overflow |
| `IsaWord.SubcTakesFromExtraRc` | objc4-824/runtime/objc-os.h:171-175 | subtracting RC_ONE takes 1 from extra_rc alone, and borrows exactly when extra_rc is 0 |
| `IsaWord.EncodeInjective` | objc4-824/runtime/isa.h:57-146 | equal words have equal fields, so a compare-and-swap of words compares the fields |
| `IsaSteps.FieldsBack` | objc4-824/runtime/isa.h:57-146 | unpacking the packed word gives back every field |
| `IsaSteps.RetainSame` | objc4-824/runtime/objc-object.h:655-691 | a pass of the retain loop done with addc and a comparison of whole words is the field-level step, in every layout and on every branch |
| `IsaSteps.ReleaseSame` | objc4-824/runtime/objc-object.h:783-820 | the same for a pass of the release loop with subc |
| `IsaSteps.BorrowSecondSame` | objc4-824/runtime/objc-object.h:852-875 | the same for the second attempt of a borrow, whose addc decides whether the count is put back |
| `IsaSteps.AssocSame` | objc4-824/runtime/objc-object.h:472-493 | the loop that sets has_assoc, done by adding the bit to the word, is the field-level step |
| `IsaSteps.WeakSame` | objc4-824/runtime/objc-object.h:505-522 | the same for the loop that sets weakly_referenced |
| `IsaSteps.RunSame` | objc4-824/runtime/objc-object.h:472-903 | every run on words, with every loop over the isa among them, in each of the four layouts and for every class that fits, is the run of the field-level machine with half = RC_HALF, so all results about that machine are about the words |
| `RetainReleaseProofs.StepKeepsInv` | objc4-824/runtime/objc-object.h:620-903 | every atomic step of every call, with any spurious failure, keeps the lock, local and counting invariants |
| `RetainReleaseTheorems.RunKeepsInv` | objc4-824/runtime/objc-object.h:300-948 | the invariant holds in every state that any schedule of any number of threads reaches |
| `RetainReleaseTheorems.Conservation` | objc4-824/runtime/objc-object.h:620-887 | extra_rc, side table and the lock holder's transfer in flight add up to 1 plus counted retains minus counted releases, always |
| `RetainReleaseTheorems.SideTableExact` | objc4-824/runtime/objc-object.h:663-902 | the side table is a multiple of RC_HALF, has_sidetable_rc is exact, and the object is deallocating exactly when the total is 0 |
| `RetainReleaseTheorems.NeverEmptyAfterAll` | objc4-824/runtime/objc-object.h:884-886 | the "side table is empty after all" branch is unreachable |
| `RetainReleaseTheorems.OneDeallocation` | objc4-824/runtime/objc-object.h:783-903 | at most one release reports deallocation, none while a reference is left, exactly one in the end |
| `RetainReleaseTheorems.RetainCountExact` | objc4-824/runtime/objc-object.h:930-948 | rootRetainCount returns the true total at the moment it loads the isa |
| `RetainReleaseTheorems.LockBalanced` | objc4-824/runtime/objc-object.h:620-903 | a thread whose call has returned does not own the side-table lock, and no two threads believe they do |
| `RetainReleaseTheorems.NeverUndone` | objc4-824/runtime/objc-object.h:472-522 | class and flag bits survive any amount of retain and release traffic, and deallocating is final |
| `RetainReleaseCalls.OnlyDeadRefuses` | objc4-824/runtime/objc-object.h:620-903 | in every run a retain, tryRetain or release refuses only an object that is deallocating and has no reference left |
| `RetainReleaseCalls.FlagsSet` | objc4-824/runtime/objc-object.h:472-522 | once a setter of has_assoc or weakly_referenced has left its loop, its flag is set, and stays set whatever follows |
| `RetainReleaseSolo.RetainAlone` | objc4-824/runtime/objc-object.h:620-707 | from every reachable state, a retain that nobody disturbs, fast or full, returns within five steps with the count one higher, or on a dead object with nothing changed |
| `RetainReleaseSolo.TryAlone` | objc4-824/runtime/objc-object.h:609-707 | tryRetain alike, within four steps; it fails on a dead object |
| `RetainReleaseSolo.ReleaseAlone` | objc4-824/runtime/objc-object.h:743-903 | a release alike, within seven steps: the count is one lower, and deallocation is reported exactly when the last reference went |
| `RetainReleaseSolo.CountAlone` | objc4-824/runtime/objc-object.h:930-948 | retainCount within three steps answers with the count and changes nothing |
| `RetainReleaseSolo.FlagsAlone` | objc4-824/runtime/objc-object.h:472-522 | each setter of a flag sets it in one step and changes nothing else |
| `SideTable.Refcounts.GetWord` | objc4-824/runtime/NSObject.mm:1595-1603 | a missing entry reads as zero, so the purge of a zero is never seen |
| `SideTable.Refcounts.AddExtraRC` | objc4-824/runtime/NSObject.mm:1540-1567 | adds exactly delta to the object's count and keeps its flag bits, or pins it exactly when the sum overflows; no other object's count changes |
| `SideTable.Refcounts.SubExtraRC` | objc4-824/runtime/NSObject.mm:1572-1592 | borrows nothing from a word of zero, present or purged; otherwise exactly delta, and says what is left |
| `SideTable.Refcounts.GetExtraRC` | objc4-824/runtime/NSObject.mm:1595-1603 | the count without its flag bits |
| `SideTable.Refcounts.ClearExtraRC` | objc4-824/runtime/NSObject.mm:1606-1613 | the object's count becomes zero and no other changes; its find succeeds |
| `SideTable.Borrow` | objc4-824/runtime/objc-object.h:835-887 | a whole borrow under the lock moves half a range or nothing out of the counter, and putting it back restores the counter |
| `SideTableMachine.StepWithTable` | objc4-824/runtime/objc-object.h:620-948 | a machine without a counter, which learns counts only from what the table's add, sub, get and clear answer, makes exactly the step of the machine with the counter; the entry to be cleared is always there, and no other object's word changes |
| `SideTableMachine.RunWithTable` | objc4-824/runtime/objc-object.h:620-948 | over every run from a new object, with any work on other objects in between, table and machine together are the machine with its counter, and every other object's word is what its own work made of it, for as long as neither the table nor the count reaches its limit |
| `SideTableMachine.OthersKeep` | objc4-824/runtime/NSObject.mm:131-147 | work on another object, done while the lock is free, leaves the object's count alone and cannot take away an entry that somebody is about to clear |
| `TryRetainLock.RunSafe` | objc4-824/runtime/objc-object.h:655-707 | a tryRetain of a dead object or one with side-table counts never loses the lock, in any schedule |
| `TryRetainLock.FastToFull` | objc4-824/runtime/objc-object.h:655-691 | another thread can always fill the inline count behind a fast tryRetain, which then reloads and goes on in the full variant with nothing else changed |
| `TryRetainLock.TryRetainLosesLockIff` | objc4-824/runtime/objc-object.h:609-707 | for a call that starts fast and for one that starts full: some schedule makes tryRetain drop its caller's lock if and only if the object is alive and has no side-table counts |
| `PowerOfTwo.NextPowerOf2Least` | objc4-824/runtime/llvm-MathExtras.h:416-425 | the bit smearing gives the least power of two above its argument, and 0 exactly when that needs 33 bits |
| `Probing.ProbesDistinct` | objc4-824/runtime/llvm-DenseMap.h:659-694 | two of the first N probes never visit the same bucket when N is a power of two |
| `Probing.ProbesCover` | objc4-824/runtime/llvm-DenseMap.h:659-694 | every bucket is visited within the first N probes, from any start |
| `DenseTable.AbsentAfterGap` | objc4-824/runtime/llvm-DenseMap.h:668-676 | an empty bucket on a key's probe path proves the key absent from the whole table |
| `DenseTable.PutEntry` | objc4-824/runtime/llvm-DenseMap.h:602-621 | writing an entry into a bucket found by the probe, even over a purgeable entry of another key, keeps the table sound, sized and a refinement |
| `DenseMaps.GrowSizePow2` | objc4-824/runtime/llvm-DenseMap.h:840-846 | a grown table has a power of two of at least 4 buckets, enough and at most twice what was asked |
| `DenseMaps.MinBucketsEnough` | objc4-824/runtime/llvm-DenseMap.h:408-415 | a reserved table holds the entries below three quarters load |
| `DenseMaps.DenseMap.constructor` | objc4-824/runtime/llvm-DenseMap.h:828-838 | a new map is empty and valid, with the buckets that the reserve asks for |
| `DenseMaps.DenseMap.LookupBucketFor` | objc4-824/runtime/llvm-DenseMap.h:641-695 | finds the key exactly when the table holds it, otherwise a bucket that may take it; it ends, and the corrupt-table exit is dead |
| `DenseMaps.DenseMap.MoveFromOldBuckets` | objc4-824/runtime/llvm-DenseMap.h:417-443 | the new table holds exactly the old non-purgeable bindings, without tombstones |
| `DenseMaps.DenseMap.Grow` | objc4-824/runtime/llvm-DenseMap.h:840-855 | rehashing loses purgeable bindings only |
| `DenseMaps.DenseMap.ShrinkAndClear` | objc4-824/runtime/llvm-DenseMap.h:857-872 | the table is emptied, with no counter left, and has exactly the size that shrinking gives it, none at all if it held nothing |
| `DenseMaps.DenseMap.EnsureRoom` | objc4-824/runtime/llvm-DenseMap.h:579-601 | rehashes exactly when the table would be three quarters full or have at most an eighth of its buckets empty, doubling it in the first case only; a rehash loses the purgeable bindings and the tombstones, and no rehash loses nothing; the bucket it gives may take the key |
| `DenseMaps.DenseMap.InsertIntoBucket` | objc4-824/runtime/llvm-DenseMap.h:560-621 | the key is bound to the value, every other binding is kept or purgeable, and the table is a new one exactly when the old one was too crowded |
| `DenseMaps.DenseMap.TryEmplace` | objc4-824/runtime/llvm-DenseMap.h:266-278 | inserts exactly when the key is absent, and changes nothing otherwise; the table grows exactly when an insertion finds it crowded |
| `DenseMaps.DenseMap.FindAndConstruct` | objc4-824/runtime/llvm-DenseMap.h:343-349 | the key's bucket, with the default value if it is new |
| `DenseMaps.DenseMap.Assign` | objc4-824/runtime/llvm-DenseMap.h:351-353 | the abstract map gains exactly this binding |
| `DenseMaps.DenseMap.Lookup` | objc4-824/runtime/llvm-DenseMap.h:222-227 | the bound value or the default, and the abstract map's value unless that is purgeable |
| `DenseMaps.DenseMap.Compact` | objc4-824/runtime/llvm-DenseMap.h:311-320 | an empty table gives up its buckets, one with fewer than one bucket in sixteen in use and over 1024 buckets is rehashed to at most four buckets an entry and drops purgeable bindings only, and any other stays as it is |
| `DenseMaps.DenseMap.Erase` | objc4-824/runtime/llvm-DenseMap.h:322-341 | reports whether the key was there; it is gone, the rest is kept or purgeable, and the table is compacted exactly when it has become empty or sparse |
| `DenseMaps.DenseMap.Clear` | objc4-824/runtime/llvm-DenseMap.h:148-179 | both maps are empty, every counter is zero, and the table shrinks exactly when it was less than a quarter full and has more than four buckets |
| `DenseMaps.DenseMap.Reserve` | objc4-824/runtime/llvm-DenseMap.h:142-147 | room for the entries; the table grows exactly when it is smaller than that needs, and then loses purgeable bindings only |
| `DenseMaps.DenseMap.Equals` | objc4-824/runtime/llvm-DenseMap.h:722-738 | true exactly when the two tables hold the same bindings |
| `DenseMapRuns.Run` | objc4-824/runtime/llvm-DenseMap.h:142-443 | after any run of puts, inserts, constructions, removals, clears, compactions and reservations the table is valid (no key twice, exact counters, power-of-two size, load below 3/4, more than 1/8 empty), the abstract map went through a sequence of maps in which each call did what it means, and a lookup of any key differs from the last one only by a purged value |
| `DenseMapRuns.Step` | objc4-824/runtime/llvm-DenseMap.h:142-353 | one call changes the abstract map as an ordinary map would, except that an insert or construction over a purgeable binding may find it gone |
| `Permutation.PermuteInjective` | objc4-824/FNCommon/objc-shared-cache.h:1062-1081 | permute is injective on n-bit numbers |
| `Permutation.PermuteOnto` | objc4-824/FNCommon/objc-shared-cache.h:1062-1081 | permute is onto the n-bit numbers |
| `Permutation.PermuteFixesZero` | objc4-824/FNCommon/objc-shared-cache.h:1062-1081 | permute(0) is 0 |
| `Permutation.RoundsWrap` | objc4-824/FNCommon/objc-shared-cache.h:1062-1081 | the rounds computed on 32-bit words that wrap are the rounds computed on numbers, for every width up to 32 bits |
| `PerfectHashBuilder.PermuteLoop` | objc4-824/FNCommon/objc-shared-cache.h:1062-1081 | permute's twenty rounds on wrapping 32-bit words compute the permutation of the n-bit numbers |
| `PerfectHashBuilder.Scrambleinit` | objc4-824/FNCommon/objc-shared-cache.h:1083-1094 | the 256 scramble words are permute(i), all below smax |
| `PerfectHashBuilder.Log2u` | objc4-824/FNCommon/objc-shared-cache.h:1051-1058 | the least i with val <= 2^i |
| `PerfectHashBuilder.Builder.Inittab` | objc4-824/FNCommon/objc-shared-cache.h:1101-1135 | true exactly when all (a,b) pairs differ; then the lists hold exactly the keys of each b |
| `PerfectHashSpec.SiblingsApart` | objc4-824/FNCommon/objc-shared-cache.h:1205-1222 | two keys of one b never meet, whatever scramble word moves them |
| `PerfectHashBuilder.Builder.Apply` | objc4-824/FNCommon/objc-shared-cache.h:1169-1227 | puts all keys of the b on their new slots; the rollback branch is never taken |
| `PerfectHashBuilder.TailFits` | objc4-824/FNCommon/objc-shared-cache.h:1302-1317 | the queue never needs more than blen + 1 entries |
| `PerfectHashBuilder.Builder.Augment` | objc4-824/FNCommon/objc-shared-cache.h:1249-1330 | succeeds exactly when one of the 256 values frees all keys of the b, and then takes the first such value; a failure leaves every slot and value unchanged |
| `PerfectHashBuilder.Builder.Perfect` | objc4-824/FNCommon/objc-shared-cache.h:1334-1368 | success gives every key its own slot below smax, and each b, those with more keys first, the first value that clashes with no b before it; failure means exactly that this first-fit placement gets stuck: some b with a key has all 256 values taken by the b's before it |
| `FirstFit.Agree` | objc4-824/FNCommon/objc-shared-cache.h:1334-1368 | two first-fit placements of the same keys give every b the same value, so what perfect computes is determined |
| `FirstFit.CompleteNotStuck` | objc4-824/FNCommon/objc-shared-cache.h:1334-1368 | first-fit either completes or gets stuck, never both |
| `PerfectHashBuilder.InitblenPow2` | objc4-824/FNCommon/objc-shared-cache.h:1412-1417 | the first blen is a power of two no larger than smax |
| `PerfectHashSpec.DoublingKeepsDistinct` | objc4-824/FNCommon/objc-shared-cache.h:1495-1511 | doubling blen under the same salt keeps all (a,b) pairs distinct |
| `PerfectHashBuilder.Builder.Findhash` | objc4-824/FNCommon/objc-shared-cache.h:1429-1519 | the search ends exactly as the plan of salts and widths says: found at the first try with distinct pairs whose placement does not get stuck, failed only when the fourth placement in a row gets stuck at the full width; a found hash is perfect for the keys under that try's salt and widths; it ends only with a salt that tells all keys apart, so duplicate keys are searched for ever |
| `SaltSearch.RetryIsDistinct` | objc4-824/FNCommon/objc-shared-cache.h:1495-1511 | the salt that is tried again with twice the width still has distinct pairs |
| `SaltSearch.MoreSteps` | objc4-824/FNCommon/objc-shared-cache.h:1466-1518 | a search that has ended ends the same way however many more steps it is allowed |
| `StringHash.ReaderMeetsBuilder` | objc4-824/FNCommon/objc-shared-cache.h:193-198 | the reader's hash of a key is the slot the builder gave it |
| `StringHash.HashInBounds` | objc4-824/FNCommon/objc-shared-cache.h:193-198 | any string at all, member or not, hashes below the capacity of a table for two strings or more |
| `StringHash.MakePerfect` | objc4-824/FNCommon/objc-shared-cache.h:1528-1567 | on success the reader's hash is injective on the strings, the capacity is less than four times their number, and shift is below 64 exactly for two strings or more; the result is that of a search for the least power of two that holds the strings, or, when that search fails, of one for the next power of two |
| `StringTable.OffsetRoundTrip` | objc4-824/FNCommon/objc-shared-cache.h:329-335 | an offset that fits 32 bits leads back to its address, and is 0 only for the table's own |
| `TableLayout.PartsApart` | objc4-824/FNCommon/objc-shared-cache.h:170-190 | no two parts of a table, down to the single table byte, check byte, offset, class header and duplicate, share a byte |
| `TableLayout.StringsFit` | objc4-824/FNCommon/objc-shared-cache.h:252-258 | size() is exactly the bytes that a string table needs: everything that is stored lies inside the section if and only if size() fits |
| `TableLayout.ClassesFit` | objc4-824/FNCommon/objc-shared-cache.h:391-504 | the same for a class table with its headers, its duplicate count and its duplicates |
| `StringTable.FitsExactly` | objc4-824/FNCommon/objc-shared-cache.h:329-335 | an offset fits exactly when storing it in 32 bits and extending the sign gives it back |
| `StringTable.OffsetExact` | objc4-824/FNCommon/objc-shared-cache.h:329-335 | the offset is the difference of the addresses in signed 64-bit arithmetic |
| `StringTable.CheckByteFields` | objc4-824/FNCommon/objc-shared-cache.h:209-215 | the check byte holds the low bits of the first character and of the length, apart from each other |
| `StringTable.StringHashT.Write` | objc4-824/FNCommon/objc-shared-cache.h:278-341 | success leaves each string's offset and check byte in its own slot and nothing elsewhere, all inside the section; too small exactly when the header or some part of the table lies outside; an offset that is too big is one of a string, and none is on success; the hash fails only when the searches for both sizes really fail, and the search gives up only when it runs out, on two strings or more |
| `StringTable.GetIndexExact` | objc4-824/FNCommon/objc-shared-cache.h:225-248 | finds exactly the written strings, save one at the table's own address, and leads to the string's address |
| `StringTable.EveryKeyAnswered` | objc4-824/FNCommon/objc-shared-cache.h:225-248 | a table of two strings or more answers every key at all, without leaving its arrays |
| `StringTable.OneStringTable` | objc4-824/FNCommon/objc-shared-cache.h:193-198 | the exact condition under which the reader of a one-string table stays inside it |
| `ClassTable.ClsOpt.Write` | objc4-824/FNCommon/objc-shared-cache.h:524-612 | success means that every class name is stored, every offset fits and every header and duplicate lies inside the section, and enters exactly the classes: single classes in their headers, duplicated ones in lists that do not overlap; every error has a class to blame, no room means that some part lies outside, and no slot comes only with fewer than two strings; the duplicate count grows by at most the number of classes |
| `ClassTable.LookupExact` | objc4-824/FNCommon/objc-shared-cache.h:426-451 | every lookup in a finished table stays inside it and answers with the number of classes of its name, and the class itself when there is one; the exceptions are exact |
| `ClassTable.GetClassesAndHeaders` | objc4-824/FNCommon/objc-shared-cache.h:453-474 | exactly the (class, header) pairs of the name, in the map's order; for a string without classes and for a single class at an odd distance, exactly what is read instead |
| `ClassTable.WriteThenRead` | objc4-824/FNCommon/objc-shared-cache.h:426-612 | after a successful write of two strings or more, every key at all is answered with its classes; with one string, every key whose slot is inside the table |
| `TableExamples.OneStringOutside` | objc4-824/FNCommon/objc-shared-cache.h:193-198 | with every one-slot hash and a machine that shifts modulo 64, the reader leaves the table |
| `TableExamples.OwnAddressLost` | objc4-824/FNCommon/objc-shared-cache.h:225-248 | with every two-slot hash of that kind, a written string that is not found |
| `TableExamples.WriteLosesOwn` | objc4-824/FNCommon/objc-shared-cache.h:225-341 | any successful write of two strings or more loses a string that starts at the table's own address |
| `TableExamples.BuilderHashes` | objc4-824/FNCommon/objc-shared-cache.h:1083-1094 | the hashes of the examples can have the scramble words of the builder and the first salt it tries |
| `TableExamples.OddClassLost` | objc4-824/FNCommon/objc-shared-cache.h:426-451 | a finished table that answers zero classes for a name with one |
| `TableExamples.NoClassFound` | objc4-824/FNCommon/objc-shared-cache.h:426-451 | a finished table that answers one class for a string with none |
| `Blocks.TotalUpdate` | 资料/libclosure-79/runtime.cpp:188-333 | replacing a cell changes the multiset of owned references by exactly what the cell owned before and after |
| `BlockRuntime.Runtime.Copy` | 资料/libclosure-79/runtime.cpp:188-237 | the ownership invariant is kept, the caller gains one reference, every variable keeps its value, and the result is a faithful deep copy of a stack block with a count of 1; the count of a heap block goes up by exactly 1, unless it is stuck at 32767, and nothing else changes |
| `BlockRuntime.Runtime.ByrefCopy` | 资料/libclosure-79/runtime.cpp:246-287 | the result is the variable's heap cell; on the first copy both the stack and the caller own it, its count is 2 and its value is unchanged, whether it is copied bitwise or by a keep helper; afterwards its count goes up by exactly 1 unless it is stuck |
| `BlockRuntime.Runtime.Assign` | 资料/libclosure-79/runtime.cpp:481-548 | for a block's helper, a counted reference that stands for the same object, block or variable; for a variable's helper, the pointer itself and no reference |
| `BlockRuntime.Runtime.Release` | 资料/libclosure-79/runtime.cpp:322-333 | one reference less; the block is freed exactly when it was the last, and otherwise its count, unless it is stuck, goes down by exactly 1 and nothing else changes; the recursion ends, and other cells only lose counts or are freed whole |
| `BlockRuntime.Runtime.ByrefRelease` | 资料/libclosure-79/runtime.cpp:289-306 | the heap cell is freed exactly when its last reference goes, after its destroy helper has given up nothing, and otherwise its count goes down by exactly 1 unless it is stuck; a variable never copied is left alone |
| `BlockRuntime.Runtime.Dispose` | 资料/libclosure-79/runtime.cpp:552-573 | gives up exactly the capture's reference for a block's helper, and nothing for a variable's |
| `BlockRuntime.Runtime.FreeCell` | 资料/libclosure-79/runtime.cpp:289-333 | only a block or variable on the heap is ever freed, and each free is recorded |
| `BlockPeaks.RecordedNext` | 资料/libclosure-79/runtime.cpp:52-103 | every step keeps the record of how many references each cell has had at most: a count is stuck if and only if that is 32767 or more |
| `BlockPeaks.CostKept` | 资料/libclosure-79/runtime.cpp:188-237 | the number of references that copying a block makes does not change while other blocks are copied |
| `BlockRuntime.ForwardOk` | 资料/libclosure-79/runtime.cpp:246-306 | forwarding of forwarding is forwarding, and leads to a live cell |
| `BlockFrames.NothingLeft` | 资料/libclosure-79/runtime.cpp:188-573 | with no reference outside, no latched count and no scope open, the heap is empty and object retains balance: ownership has no cycles |
| `BlockClients.Run` | 资料/libclosure-79/runtime.cpp:188-573 | any run of client operations keeps the ownership invariant, frees every cell at most once and exactly the cells that end up freed, and stops only where the client breaks the rules |
| `BlockClients.Write` | 资料/libclosure-79/runtime.cpp:242-287 | a store to a __block variable is seen through every pointer that shares it and by nobody else |
| `BlockClients.NoLeak` | 资料/libclosure-79/runtime.cpp:188-573 | after a run that gave everything back, and in which no cell ever had 32767 references at a time, nothing is left |
| `BlockClients.CountExact` | 资料/libclosure-79/runtime.cpp:52-103 | in every reachable state a count is the number of references to its cell, or it is stuck, and it is stuck exactly when its cell once had 32767 references |
| `BlockClients.RunShort` | 资料/libclosure-79/runtime.cpp:188-573 | a run makes at most as many references as its operations cost; if that is below 32767 no count sticks, and once everything is given back the heap is empty and every object balanced |
| `BlockClients.NothingDangles` | 资料/libclosure-79/runtime.cpp:188-573 | no held or owned reference leads to a freed cell, and none owned by the heap leads to the stack |
| `Latching.PlanMeaning` | 资料/libclosure-79/runtime.cpp:52-103 | the flag arithmetic is the counting of the block model and never carries out of the low 16 bits; which words are answered without an exchange, and the answer to each |
| `Latching.EveryRunGood` | 资料/libclosure-79/runtime.cpp:52-103 | in every interleaving: upper bits fixed, a stuck count stays stuck, otherwise it is the start plus the increments and tries that said yes minus the decrements; decrements answer yes exactly once if the deallocating bit is set and never otherwise, the bit stays set, no increment fails, and a try fails only on a deallocating block |
| `Latching.RunsFromInit` | 资料/libclosure-79/runtime.cpp:52-103 | the same for every run from a fresh word |
| `Latching.Alone` | 资料/libclosure-79/runtime.cpp:52-103 | an operation that nobody disturbs answers in one turn with the answer and the count of the block model |
| `LockOrder.ActsFit` | objc4-824/runtime/objc-os.h:782-795 | lockTwo, lockAll and single locks wait only for locks above all they hold, and give back all they took |
| `LockOrder.TwoHeld` | objc4-824/runtime/objc-os.h:782-795 | lockTwo leaves exactly its two locks held, also when they are the same, and unlockTwo leaves none |
| `LockOrder.HeldInside` | objc4-824/runtime/objc-os.h:782-795 | in every run, a thread between lockTwo and unlockTwo, or between lockAll and unlockAll, owns all of those locks |
| `LockOrder.NeverAllBlocked` | objc4-824/runtime/objc-private.h:939-949 | in every reachable state where a thread is busy, some thread can go on |
| `LockOrder.NoWaitCycle` | objc4-824/runtime/objc-os.h:782-795 | the wait-for relation has no cycle in any reachable state |
| `InlineRefcount.EveryRunSafe` | objc4-824/runtime/objc-internal.h:1104-1162 | whatever the clients do, even answering RESURRECT without having retained: at most one thread marks the object, its count is odd from then on, it is deallocated at most once, and no later _tryRetain succeeds |
| `InlineRefcount.FairRunExact` | objc4-824/runtime/objc-internal.h:1104-1162 | balanced clients never trap, the count is exact, and at zero references one thread decides the fate or the object is gone |
| `InlineRefcount.RunsFromInit` | objc4-824/runtime/objc-internal.h:1104-1162 | both for every run from a new object |
| `InlineRefcount.TryFails` | objc4-824/runtime/objc-internal.h:1104-1162 | _tryRetain gives up only on an odd count or on -2, and otherwise adds one reference or tries again |
| `InlineRefcount.TryAlone` | objc4-824/runtime/objc-internal.h:1104-1162 | undisturbed, it takes a reference exactly when there is one |
| `InlineRefcount.Effects` | objc4-824/runtime/objc-internal.h:1104-1162 | what each step does to the references of balanced clients |
| `TaggedPointers.DecodeEncode` | objc4-824/runtime/objc-internal.h:498-543 | decoding undoes encoding for every word, layout and obfuscator |
| `TaggedPointers.Obfuscates` | objc4-824/runtime/objc-internal.h:498-543 | an encoded word is the word exclusive-or the obfuscator, with the tag permuted in the split layout, save for the words kept in the clear |
| `TaggedPointers.RoundTrip` | objc4-824/runtime/objc-internal.h:552-631 | a made pointer is tagged, has the tag given, and yields the payload cut to 60 or 52 bits, zero- and sign-extended |
| `ListArray.Lists.AttachLists` | objc4-824/runtime/objc-runtime-new.h:1345-1381 | the added lists come first, in their order, then the old ones, in every representation |
| `ListArray.Lists.AttachAll` | objc4-824/runtime/objc-runtime-new.h:1345-1381 | after any sequence of calls the batches are newest first |
| `ListArray.Lists.Count` | objc4-824/runtime/objc-runtime-new.h:1293-1303 | the length of the concatenation, in 32 bits |
| `ListArray.Lists.Iterate` | objc4-824/runtime/objc-runtime-new.h:1210-1252 | the iterator visits what the iteration function says and says whether it stayed inside |
| `ListArray.IterationExact` | objc4-824/runtime/objc-runtime-new.h:1210-1252 | an iteration stays inside if and only if no list is empty, and then visits exactly the concatenation |
| `ListArray.EmptyListBreaks` | objc4-824/runtime/objc-runtime-new.h:1210-1252 | a single empty list sends the iterator past its end |
| `ListArray.Lists.DuplicateInto` | objc4-824/runtime/objc-runtime-new.h:1395-1408 | the other array holds equal lists in the same representation, all of them new |
| `ListArray.Lists.DuplicateApart` | objc4-824/runtime/objc-runtime-new.h:1395-1408 | after a duplication, attaching to the original and storing into its lists leave the duplicate alone |

## Left out

- Pointer authentication, memory orders and load-exclusive reservations: an exchange is a compare-and-swap that may fail spuriously, under sequential consistency.
- The raw-pointer isa and changeIsa, with the side table's flag bits and its moves of whole counts: the object stays non-pointer, and its side-table word is a plain count.
- SideTable.Refcounts.AddExtraRC: words have 64 bits, and delta << SIDE_TABLE_RC_SHIFT is taken not to overflow, as with every delta in the source.
- SideTableMachine.RunWithTable: stops where a table would pass 2^28 buckets or a count would be pinned; and a search of the table is one step, since the lock is held.
- Deallocation itself, associated objects and the weak table beyond their flag bits.
- PerfectHashBuilder.Builder.Findhash: the source's search has no bound, so the model is given a number of salts to try and reports when they run out; at most 2^30 keys, beyond which the source's 32-bit sizes overflow.
- DenseMaps.DenseMap.Assign: tables of more than 2^28 buckets, where the source's unsigned products wrap, are outside the preconditions, as for the other operations that size the table.
- StringTable.StringHashT.Write: getIndex on a table written from no strings reads past the header in the source; the model writes such a table and does not look anything up in it.
- ClassTable.ClsOpt.Write: the duplicate count found in the section on entry is kept as it is, and the 32-bit overflow of the count is excluded by at most 2^29 classes.
- ClassTable.GetClassesAndHeaders: of a single class at an odd distance the source reads a list wherever the header offset points; the model says whether there is one, and reads it.
- lookup8, the byte swapping of tables, and the protocol tables (objc_protocolopt_t), which would repeat the class table with easier claims.
- SmallDenseMap's inline storage, iterators and destructors of DenseMap.
- Malloc failure, concurrent _Block_byref_copy (its forwarding store is not atomic in the source), and C++ captures.
- BlockRuntime.Runtime.ByrefCopy: a __block variable's keep helper is the one that calls _Block_object_assign with BLOCK_BYREF_CALLER; helpers that retain, which the compiler writes, are not part of this model.
- BlockRuntime.Runtime.ByrefRelease: likewise for destroy helpers that release.
- BlockRuntime.Runtime.Assign: a null object or block is a plain value, and the copy helper's stores into the new block happen at the end of the helper.
- list_array_tt's tryFree, which frees memory that nothing else in the model reaches.
- Overflow of the inline reference count ivar: the ivar is unbounded.
