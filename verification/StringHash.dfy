/** The precomputed string table: make_perfect packs the builder's result,
    write fills the slots, getIndex reads them back. */
module StringHash {
  import opened Bits
  import opened PerfectHashSpec
  import opened PerfectHashBuilder
  import opened SaltSearch
  import PowerOfTwo

  /** struct perfect_hash; capacity 0 means that no hash was found. */
  datatype PerfectHash = PerfectHash(capacity: nat, occupied: nat, shift: nat, mask: nat, salt: Word64,
                                     scramble: seq<nat>, tab: seq<nat>)

  const NO_HASH := PerfectHash(0, 0, 0, 0, 0, [], [])

  /** The hash function, and what the machine makes of a 64-bit word shifted
      right by 64, which C++ leaves open. */
  datatype Machine = Machine(lookup: (string, Word64) -> Word64, past: Word64 -> Word64)

  /** Every index that the reader computes stays inside these tables. */
  ghost predicate Shaped(t: PerfectHash) {
    && IsPow2(t.capacity) && t.capacity <= Pow2(31)
    && t.shift <= 64 && Pow2(64 - t.shift) <= t.capacity
    && |t.tab| == t.mask + 1 && IsPow2(|t.tab|) && |t.scramble| == SCRAMBLE_LEN
    && (forall b :: 0 <= b < |t.tab| ==> t.tab[b] < SCRAMBLE_LEN)
    && (forall i :: 0 <= i < |t.scramble| ==> t.scramble[i] < t.capacity)
  }

  /** hash: the slot of a string. */
  function HashIndex(t: PerfectHash, m: Machine, key: string): nat
    requires |t.tab| == t.mask + 1 && |t.scramble| == SCRAMBLE_LEN
    requires forall b :: 0 <= b < |t.tab| ==> t.tab[b] < SCRAMBLE_LEN
  {
    var val := m.lookup(key, t.salt);
    var high := if t.shift < 64 then Shr(val, t.shift) else m.past(val);
    Xor(high % 0x1_0000_0000, t.scramble[t.tab[val % (t.mask + 1)]])
  }

  lemma HighPart(val: Word64, shift: nat)
    requires shift < 64 && Pow2(64 - shift) <= Pow2(31)
    ensures Shr(val, shift) < Pow2(64 - shift) && Shr(val, shift) % 0x1_0000_0000 == Shr(val, shift)
  {
    Pow2Of64();
    ShrBound(val, shift, 64 - shift);
    PowerOfTwo.WordIsPow2();
    Pow2Mono(31, 32);
  }

  /** Any string whatever, in the table or not, hashes to a slot of a table
      that was built for two strings or more. */
  lemma HashInBounds(t: PerfectHash, m: Machine, key: string)
    requires Shaped(t) && t.shift < 64
    ensures HashIndex(t, m, key) < t.capacity
  {
    var val := m.lookup(key, t.salt);
    HighPart(val, t.shift);
    var k: nat :| k < t.capacity && t.capacity == Pow2(k);
    XorBound(Shr(val, t.shift), t.scramble[t.tab[val % (t.mask + 1)]], k);
  }

  /** The reader's hash of a key is the slot the builder gave it. */
  lemma ReaderMeetsBuilder(t: PerfectHash, m: Machine, k0: seq<Key>, keys: seq<Key>, tabb: seq<BStuff>, lg: nat,
                           lga: nat, k: nat)
    requires Shaped(t) && 0 < lga <= lg <= 31 && t.capacity == Pow2(lg) && t.shift == 64 - lga
    requires InRange(keys, tabb, t.scramble, lg) && Hashed(m.lookup, k0, keys, t.salt, lga, |tabb|) && k < |keys|
    requires |t.tab| == |tabb| && forall b :: 0 <= b < |tabb| ==> t.tab[b] == tabb[b].val
    ensures HashIndex(t, m, keys[k].name) == SlotOf(keys, tabb, t.scramble, k)
  {
    var val := m.lookup(keys[k].name, t.salt);
    Pow2Mono(lga, 31);
    HighPart(val, t.shift);
    assert keys[k].a == PartA(val, lga) && keys[k].b == PartB(val, |tabb|);
    assert t.mask + 1 == |tabb| && (|tabb| == 1 ==> val % 1 == 0);
    assert val % (t.mask + 1) == keys[k].b;
  }

  /** Different strings of the table have different slots. */
  ghost predicate Injective(t: PerfectHash, m: Machine, names: seq<string>)
    requires Shaped(t)
  {
    forall i, j :: 0 <= i < j < |names| ==> HashIndex(t, m, names[i]) != HashIndex(t, m, names[j])
  }

  lemma PerfectIsInjective(t: PerfectHash, m: Machine, names: seq<string>, k0: seq<Key>, keys: seq<Key>,
                           tabb: seq<BStuff>, lg: nat, lga: nat)
    requires Shaped(t) && lga <= lg <= 31 && (lg > 0 ==> lga > 0) && t.capacity == Pow2(lg) && t.shift == 64 - lga
    requires InRange(keys, tabb, t.scramble, lg) && Hashed(m.lookup, k0, keys, t.salt, lga, |tabb|)
    requires |t.tab| == |tabb| && forall b :: 0 <= b < |tabb| ==> t.tab[b] == tabb[b].val
    requires PerfectFor(keys, tabb, t.scramble, lg)
    requires |keys| == |names| <= Pow2(lg) && forall k :: 0 <= k < |keys| ==> keys[k].name == names[k]
    ensures Injective(t, m, names)
  {
    forall i, j | 0 <= i < j < |names| ensures HashIndex(t, m, names[i]) != HashIndex(t, m, names[j]) {
      assert lg > 0;
      ReaderMeetsBuilder(t, m, k0, keys, tabb, lg, lga, i);
      ReaderMeetsBuilder(t, m, k0, keys, tabb, lg, lga, j);
    }
  }

  /** The hash function under this salt tells the strings apart. */
  ghost predicate Separates(m: Machine, names: seq<string>, salt: Word64) {
    forall i, j :: 0 <= i < j < |names| ==> m.lookup(names[i], salt) != m.lookup(names[j], salt)
  }

  /** How a search for a table of 2^lg slots ends. */
  ghost function SearchEnds(m: Machine, names: seq<string>, lg: nat, steps: nat): Search
    requires lg <= 31
  {
    SearchFrom(m.lookup, KeysOf(names), lg, FirstTry(|names|, lg), steps).0
  }

  /** One findhash, packed into a perfect_hash. */
  method TryPerfect(m: Machine, names: seq<string>, lg: nat, steps: nat) returns (t: PerfectHash, r: Search)
    requires lg <= 31 && |names| <= Pow2(lg)
    ensures !r.Found? ==> t == NO_HASH
    ensures r.Found? ==> Shaped(t) && t.capacity == Pow2(lg) && t.occupied == |names| && Injective(t, m, names)
    ensures r.Found? ==> (t.shift == 64 <==> lg == 0)
    ensures |names| < 2 ==> !r.Failed? && (steps > 0 ==> r.Found?)
    ensures !r.OutOfSteps? ==> exists salt: Word64 :: Separates(m, names, salt)
    ensures r == SearchEnds(m, names, lg, steps)
  {
    var b := new Builder(m.lookup, lg, names);
    ghost var k0 := b.keys;
    var last;
    r, last := b.Findhash(steps);
    assert !r.OutOfSteps? ==> Separates(m, names, SaltOf(last.si));
    if !r.Found? { return NO_HASH, r; }
    t := Pack(b, last.lga, SaltOf(last.si));
    PackIsShaped(t, b.tabb, b.keys, lg, last.lga);
    PerfectIsInjective(t, m, names, k0, b.keys, b.tabb, lg, last.lga);
  }

  method Pack(b: Builder, lga: nat, salt: Word64) returns (t: PerfectHash)
    requires b.Sized(lga) && InRange(b.keys, b.tabb, b.scramble, b.lg)
    ensures t == PerfectHash(Pow2(b.lg), |b.keys|, 64 - lga, |b.tabb| - 1, salt, b.scramble, t.tab)
    ensures |t.tab| == |b.tabb| && forall i :: 0 <= i < |b.tabb| ==> t.tab[i] == b.tabb[i].val
  {
    var tab := [];
    for i := 0 to |b.tabb|
      invariant |tab| == i && forall k :: 0 <= k < i ==> tab[k] == b.tabb[k].val
    {
      tab := tab + [b.tabb[i].val];
    }
    PowerOfTwo.BitLengthOnes(lga);
    var log := Log2u(Pow2(lga));
    return PerfectHash(Pow2(b.lg), |b.keys|, 64 - log, |tab| - 1, salt, b.scramble, tab);
  }

  lemma PackIsShaped(t: PerfectHash, tabb: seq<BStuff>, keys: seq<Key>, lg: nat, lga: nat)
    requires lga <= lg <= 31 && IsPow2(|tabb|) && InRange(keys, tabb, t.scramble, lg)
    requires t.capacity == Pow2(lg) && t.shift == 64 - lga && t.mask == |tabb| - 1
    requires |t.tab| == |tabb| && forall i :: 0 <= i < |tabb| ==> t.tab[i] == tabb[i].val
    ensures Shaped(t)
  {
    IsPow2Intro(lg);
    Pow2Mono(lg, 31);
    Pow2Mono(lga, lg);
  }

  /** The least lg with |names| <= 2^lg. */
  ghost predicate LeastWidth(names: seq<string>, lg: nat) {
    |names| <= Pow2(lg) && (lg > 0 ==> Pow2(lg - 1) < |names|)
  }

  /** What make_perfect does: a search for the least power of two that holds the
      strings, and when that has failed, another for the next.  The last search
      ends with r at 2^lg slots. */
  ghost predicate Searched(m: Machine, names: seq<string>, steps: nat, lg: nat, r: Search) {
    && lg <= 31 && r == SearchEnds(m, names, lg, steps)
    && if LeastWidth(names, lg) then !r.Failed?
       else lg > 0 && LeastWidth(names, lg - 1) && SearchEnds(m, names, lg - 1, steps).Failed?
  }

  ghost predicate SearchedSome(m: Machine, names: seq<string>, steps: nat, r: Search) {
    exists lg: nat :: Searched(m, names, steps, lg, r)
  }

  /** make_perfect: try the least power of two that holds the strings, then
      the next one. */
  method MakePerfect(m: Machine, names: seq<string>, steps: nat) returns (t: PerfectHash, r: Search, ghost width: nat)
    requires |names| <= 0x4000_0000
    ensures !r.Found? ==> t == NO_HASH
    ensures r.Found? ==> Shaped(t) && t.occupied == |names| && Injective(t, m, names)
    ensures r.Found? ==> |names| <= t.capacity && (|names| > 0 ==> t.capacity < 4 * |names|)
    ensures r.Found? ==> (t.shift < 64 <==> |names| >= 2) && (t.shift == 64 <==> t.capacity == 1)
    ensures |names| < 2 ==> !r.Failed? && (steps > 0 ==> r.Found?)
    ensures !r.OutOfSteps? ==> exists salt: Word64 :: Separates(m, names, salt)
    ensures Searched(m, names, steps, width, r) && (r.Found? ==> t.capacity == Pow2(width))
  {
    var lg := Log2u(|names|);
    LogAtMost(|names|, lg);
    t, r, width := TryTwice(m, names, lg, steps);
  }

  method TryTwice(m: Machine, names: seq<string>, lg: nat, steps: nat)
    returns (t: PerfectHash, r: Search, ghost width: nat)
    requires lg <= 30 && LeastWidth(names, lg)
    ensures !r.Found? ==> t == NO_HASH
    ensures r.Found? ==> Shaped(t) && t.occupied == |names| && Injective(t, m, names)
    ensures r.Found? ==> t.capacity == Pow2(width) && (t.shift == 64 <==> width == 0)
    ensures |names| < 2 ==> width == lg && !r.Failed? && (steps > 0 ==> r.Found?)
    ensures !r.OutOfSteps? ==> exists salt: Word64 :: Separates(m, names, salt)
    ensures Searched(m, names, steps, width, r) && lg <= width <= lg + 1
  {
    t, r := TryPerfect(m, names, lg, steps);
    width := lg;
    if r.Failed? {
      NextWidth(names, lg);
      t, r := TryPerfect(m, names, lg + 1, steps);
      width := lg + 1;
    }
  }

  lemma NextWidth(names: seq<string>, lg: nat)
    requires LeastWidth(names, lg)
    ensures !LeastWidth(names, lg + 1) && |names| <= Pow2(lg + 1)
  {
  }

  /** The bound of 2^30 strings keeps both capacities within 32 bits. */
  lemma LogAtMost(n: nat, lg: nat)
    requires n <= 0x4000_0000 && n <= Pow2(lg) && (lg > 0 ==> Pow2(lg - 1) < n)
    ensures lg <= 30 && Pow2(lg) < Pow2(lg + 1) && (lg == 0 <==> n < 2) && (n > 0 ==> Pow2(lg + 1) < 4 * n)
  {
    assert Pow2(30) == 0x4000_0000 by { Pow2Add(15, 15); assert Pow2(15) == 32768 by { Pow2Add(8, 7); } }
    if lg > 30 { Pow2Mono(30, lg - 1); }
    if lg > 1 { Pow2Mono(1, lg - 1); }
    assert Pow2(1) == 2;
  }
}
