/** The inputs at which the precomputed tables do not do what one would expect:
    small tables with their wrong answers. */
module TableExamples {
  import opened Bits
  import opened ClassTable
  import opened PerfectHashSpec
  import opened StringHash
  import opened StringTable
  import SaltSearch
  import Permutation

  const BASE: Word64 := 1000

  /** The hash of "b" has its first and its last bit set, every other hash is 0;
      a shift by 64 does nothing, as on machines that take the shift count
      modulo 64. */
  function Lookup(name: string, salt: Word64): Word64 { if name == "b" then 0x8000_0000_0000_0001 else 0 }

  const MACHINE := Machine(Lookup, x => x)

  /** Two slots: the top bit of the hash chooses between them.  Salt and most
      scramble words do not matter. */
  predicate TwoSlots(t: PerfectHash) {
    && t.capacity == 2 && t.occupied == 2 && t.shift == 63 && t.mask == 0 && t.tab == [0]
    && |t.scramble| == SCRAMBLE_LEN && t.scramble[0] == 0 && forall i :: 0 <= i < |t.scramble| ==> t.scramble[i] < 2
  }

  /** The hash of one string. */
  predicate OneSlot(t: PerfectHash) {
    && t.capacity == 1 && t.occupied == 1 && t.shift == 64 && t.mask == 0 && t.tab == [0]
    && |t.scramble| == SCRAMBLE_LEN && forall i :: 0 <= i < |t.scramble| ==> t.scramble[i] == 0
  }

  /** The scramble words for 2^lg slots. */
  function Scramble(permute: nat -> nat): (s: seq<nat>)
    ensures |s| == SCRAMBLE_LEN && forall i :: 0 <= i < |s| ==> s[i] == permute(i)
  {
    seq(SCRAMBLE_LEN, (i: nat) => permute(i))
  }

  lemma SlotsFrom(permute: nat -> nat, lg: nat, salt: Word64)
    requires permute(0) == 0 && forall i: nat :: permute(i) < Pow2(lg)
    ensures lg == 1 ==> TwoSlots(PerfectHash(2, 2, 63, 0, salt, Scramble(permute), [0]))
    ensures lg == 0 ==> OneSlot(PerfectHash(1, 1, 64, 0, salt, Scramble(permute), [0]))
  {
    assert Pow2(0) == 1 && Pow2(1) == 2;
  }

  /** The builder's scramble words and its first salt make such hashes. */
  lemma BuilderHashes(lg: nat, permute: nat -> nat, salt: Word64)
    requires permute == ((i: nat) => Permutation.Permute(i, lg)) && salt == SaltSearch.SaltOf(1)
    ensures lg == 1 ==> TwoSlots(PerfectHash(2, 2, 63, 0, salt, Scramble(permute), [0]))
    ensures lg == 0 ==> OneSlot(PerfectHash(1, 1, 64, 0, salt, Scramble(permute), [0]))
  {
    Permutation.PermuteFixesZero(lg);
    forall i: nat ensures permute(i) < Pow2(lg) { Permutation.PermuteRange(i, lg); }
    SlotsFrom(permute, lg, salt);
  }

  lemma HashWorks(t: PerfectHash)
    requires TwoSlots(t)
    ensures Shaped(t) && HashIndex(t, MACHINE, "a") == 0 && HashIndex(t, MACHINE, "b") == 1
  {
    HashShaped(t);
    TopBit();
    XorZero(0);
    XorZero(1);
    XorComm(0, 1);
  }

  lemma HashShaped(t: PerfectHash)
    requires TwoSlots(t)
    ensures Shaped(t)
  {
    assert Pow2(0) == 1 && Pow2(1) == 2;
    IsPow2Intro(0);
    IsPow2Intro(1);
    Pow2Mono(1, 31);
  }

  lemma TopBit()
    ensures Shr(0, 63) == 0 && Shr(0x8000_0000_0000_0001, 63) == 1
  {
    Pow2Of64();
    assert Pow2(64) == 2 * Pow2(63) && Pow2(1) == 2;
    ShrShrinks(0, 63);
    ShrBound(0x8000_0000_0000_0001, 63, 1);
    ShrPositive(0x8000_0000_0000_0001, 63);
  }

  lemma {:induction false} ShrPositive(x: nat, n: nat)
    requires x >= Pow2(n)
    ensures Shr(x, n) > 0
    decreases n
  {
    if n > 0 { ShrPositive(x / 2, n - 1); }
  }

  // ------------------------------------------- a string at the table's address

  const OWN := [Entry("a", 1000), Entry("b", 1004)]

  function OwnTable(t: PerfectHash): Table { Table(t, [CheckByte("a"), CheckByte("b")], [0, 4]) }

  function OwnMemory(addr: Word64): string { if addr == 1000 then "a" else "b" }

  /** "a" was written, and getIndex does not find it. */
  lemma OwnAddressLost(t: PerfectHash)
    requires TwoSlots(t)
    ensures Filled(OwnTable(t), MACHINE, BASE, OWN) && DistinctNames(OWN) && Loaded(OwnMemory, OWN)
    ensures HashIndex(t, MACHINE, "a") < t.capacity && OWN[0].name == "a"
    ensures GetIndex(OwnTable(t), MACHINE, BASE, OwnMemory, "a") == INDEX_NOT_FOUND
  {
    HashWorks(t);
    assert Holds(OwnTable(t), MACHINE, BASE, OWN[0]) && Holds(OwnTable(t), MACHINE, BASE, OWN[1]);
    assert HashIndex(t, MACHINE, OWN[1].name) == 1;
  }

  /** Not only there: whatever table write makes, it loses the string at its own
      address. */
  method WriteLosesOwn(t: StringHashT, base: Word64, remaining: nat, strings: seq<Entry>, steps: nat,
                       memory: Word64 -> string, k: nat)
    returns (r: Outcome)
    requires DistinctNames(strings) && 2 <= |strings| <= 0x4000_0000 && Loaded(memory, strings)
    requires k < |strings| && strings[k].addr == base
    modifies t
    ensures r.Written? ==> Filled(t.table, t.machine, base, strings)
    ensures r.Written? ==> HashIndex(t.table.hash, t.machine, strings[k].name) < t.table.hash.capacity
    ensures r.Written? ==> forall h :: 0 <= h < |t.table.offsets| ==> Fits(t.table.offsets[h])
    ensures r.Written? ==> GetIndex(t.table, t.machine, base, memory, strings[k].name) == INDEX_NOT_FOUND
  {
    r := t.Write(base, remaining, strings, steps);
    if r.Written? {
      EveryKeyAnswered(t.table, t.machine, base, memory, strings, strings[k].name);
    }
  }

  // -------------------------------------------------- an odd class, no class

  const NAMES := [Entry("a", 1008), Entry("b", 1004)]

  function NamesTable(t: PerfectHash): Table { Table(t, [CheckByte("a"), CheckByte("b")], [8, 4]) }

  function NamesMemory(addr: Word64): string { if addr == 1008 then "a" else "b" }

  function NamesContext(t: PerfectHash): Context { Context(NamesTable(t), MACHINE, BASE, NamesMemory, NAMES) }

  /** One class, at an odd distance from the table; "b" names no class. */
  const CLASSES := [ClassEntry("a", 1001, 1002)]
  const HEADERS := [ClassHeader(1, 2), ClassHeader(0, 0)]

  lemma NamesReady(t: PerfectHash)
    requires TwoSlots(t)
    ensures Ready(NamesContext(t)) && SlotMap(NamesContext(t))("a") == 0 && SlotMap(NamesContext(t))("b") == 1
    ensures Stored(NAMES, BASE, "a") && Stored(NAMES, BASE, "b")
  {
    HashWorks(t);
    NamesFilled(t);
    assert NAMES[0] == Entry("a", 1008) && NAMES[1] == Entry("b", 1004);
  }

  lemma NamesFilled(t: PerfectHash)
    requires TwoSlots(t)
    ensures Filled(NamesTable(t), MACHINE, BASE, NAMES)
  {
    HashWorks(t);
    assert Holds(NamesTable(t), MACHINE, BASE, NAMES[0]) && Holds(NamesTable(t), MACHINE, BASE, NAMES[1]);
    assert HashIndex(t, MACHINE, NAMES[0].name) == 0 && HashIndex(t, MACHINE, NAMES[1].name) == 1;
  }

  lemma Ranges()
    ensures Range(CLASSES, "a") == CLASSES && Range(CLASSES, "b") == []
  {
    assert CLASSES[1..] == [];
  }

  lemma ClassesFinished(t: PerfectHash)
    requires TwoSlots(t)
    ensures Finished(NamesContext(t), CLASSES, HEADERS, 0, map[])
  {
    NamesReady(t);
    Ranges();
    assert CLASSES[0].name == "a" && RangeMap(CLASSES)("a") == CLASSES;
    assert SlotMap(NamesContext(t))(CLASSES[0].name) == 0;
  }

  lemma OddAnswer(a: Answer)
    requires Answers(a, true, BASE, CLASSES)
    ensures a == Answer(0, 0, 0)
  {
    assert Offset(CLASSES[0].cls, BASE) == 1;
  }

  lemma NoAnswer(a: Answer)
    requires Answers(a, true, BASE, [])
    ensures a == Answer(1, BASE, BASE)
  {
  }

  /** The name of a class at an odd distance is answered as if it had none. */
  lemma OddClassLost(t: PerfectHash)
    requires TwoSlots(t)
    ensures Finished(NamesContext(t), CLASSES, HEADERS, 0, map[]) && |Range(CLASSES, "a")| == 1
    ensures Readable(NamesContext(t), HEADERS, "a")
            && GetClassAndHeader(NamesContext(t), HEADERS, "a") == Answer(0, 0, 0)
  {
    ClassesFinished(t);
    NamesReady(t);
    Ranges();
    LookupExact(NamesContext(t), CLASSES, HEADERS, 0, map[], "a");
    OddAnswer(GetClassAndHeader(NamesContext(t), HEADERS, "a"));
  }

  /** A string that names no class is answered as if the table were its class. */
  lemma NoClassFound(t: PerfectHash)
    requires TwoSlots(t)
    ensures Finished(NamesContext(t), CLASSES, HEADERS, 0, map[]) && |Range(CLASSES, "b")| == 0
    ensures Readable(NamesContext(t), HEADERS, "b")
            && GetClassAndHeader(NamesContext(t), HEADERS, "b") == Answer(1, BASE, BASE)
  {
    ClassesFinished(t);
    NamesReady(t);
    Ranges();
    LookupExact(NamesContext(t), CLASSES, HEADERS, 0, map[], "b");
    NoAnswer(GetClassAndHeader(NamesContext(t), HEADERS, "b"));
  }

  // ------------------------------------------------------------- one string

  /** With that machine, the reader of a one-string table leaves it. */
  lemma OneStringOutside(t: PerfectHash)
    requires OneSlot(t)
    ensures Shaped(t) && HashIndex(t, MACHINE, "b") >= t.capacity
  {
    assert Pow2(0) == 1;
    IsPow2Intro(0);
    Pow2Mono(0, 31);
    OneStringTable(t, MACHINE, "b");
  }
}
