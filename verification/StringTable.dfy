/** objc_stringhash_t: write lays the strings out by their perfect hash, and
    getIndex finds exactly those strings again. */
module StringTable {
  import opened Bits
  import opened PerfectHashSpec
  import opened SaltSearch
  import opened StringHash
  import opened TableLayout
  import PowerOfTwo

  const INDEX_NOT_FOUND: nat := 0xffff_ffff

  /** An entry of string_map: a string and its address. */
  datatype Entry = Entry(name: string, addr: Word64)

  /** The table in memory: header and hash data, check bytes, offsets. */
  datatype Table = Table(hash: PerfectHash, checkbytes: seq<nat>, offsets: seq<int>)

  const EMPTY := Table(NO_HASH, [], [])

  /** The results of write: success, its three error messages, the search
      given up, and a slot computed outside the table. */
  datatype Outcome = Written | TooSmall | HashFailed | OffsetTooBig | GaveUp | OutsideTable

  /** addr - base as a signed 64-bit difference. */
  function Offset(addr: Word64, base: Word64): int {
    var d := addr - base;
    if d >= 0x8000_0000_0000_0000 then d - 0x1_0000_0000_0000_0000
    else if d < -0x8000_0000_0000_0000 then d + 0x1_0000_0000_0000_0000
    else d
  }

  /** base + offset on 64 bits. */
  function Target(base: Word64, offset: int): Word64
    requires Fits(offset)
  {
    var a := base + offset;
    if a < 0 then a + 0x1_0000_0000_0000_0000
    else if a >= 0x1_0000_0000_0000_0000 then a - 0x1_0000_0000_0000_0000
    else a
  }

  /** The offset survives the round trip through 32 bits. */
  predicate Fits(offset: int) { -0x8000_0000 <= offset < 0x8000_0000 }

  /** A stored offset leads back to the address; only the table's own address
      is stored as 0. */
  lemma OffsetRoundTrip(addr: Word64, base: Word64)
    requires Fits(Offset(addr, base))
    ensures Target(base, Offset(addr, base)) == addr
    ensures Offset(addr, base) == 0 <==> addr == base
  {
  }

  /** Exactly the offsets that come back from a signed 32-bit field fit. */
  lemma FitsExactly(offset: int)
    ensures Fits(offset) <==> SignExtended(offset % 0x1_0000_0000) == offset
  {
  }

  function SignExtended(w: nat): int { if w < 0x8000_0000 then w else w - 0x1_0000_0000 }

  /** The offset is the difference of the addresses on signed 64-bit words. */
  lemma OffsetExact(addr: Word64, base: Word64)
    ensures (Offset(addr, base) - (addr - base)) % 0x1_0000_0000_0000_0000 == 0
    ensures -0x8000_0000_0000_0000 <= Offset(addr, base) < 0x8000_0000_0000_0000
  {
  }

  function CheckByte(key: string): nat {
    (if key == "" then 0 else (key[0] as int % 8) * 32) + |key| % 32
  }

  /** A byte: three bits of the first character above five bits of the length. */
  lemma CheckByteFields(key: string)
    ensures CheckByte(key) < 256 && CheckByte(key) % 32 == |key| % 32
    ensures CheckByte(key) / 32 == if key == "" then 0 else key[0] as int % 8
  {
  }

  predicate DistinctNames(strings: seq<Entry>) {
    forall i, j :: 0 <= i < j < |strings| ==> strings[i].name != strings[j].name
  }

  function Names(strings: seq<Entry>): (names: seq<string>)
    ensures |names| == |strings| && forall k :: 0 <= k < |names| ==> names[k] == strings[k].name
  {
    seq(|strings|, k requires 0 <= k < |strings| => strings[k].name)
  }

  /** The slots hold exactly the first n strings. */
  ghost predicate FilledTo(t: Table, m: Machine, base: Word64, strings: seq<Entry>, n: nat) {
    && n <= |strings| && Shaped(t.hash)
    && |t.checkbytes| == |t.offsets| == t.hash.capacity
    && (forall k :: 0 <= k < n ==> Holds(t, m, base, strings[k]))
    && (forall h :: 0 <= h < |t.offsets| && t.offsets[h] != 0 ==>
          exists k :: 0 <= k < n && HashIndex(t.hash, m, strings[k].name) == h)
  }

  ghost predicate Holds(t: Table, m: Machine, base: Word64, e: Entry)
    requires Shaped(t.hash) && |t.checkbytes| == |t.offsets|
  {
    var h := HashIndex(t.hash, m, e.name);
    && h < |t.offsets|
    && Fits(t.offsets[h]) && t.offsets[h] == Offset(e.addr, base)
    && t.checkbytes[h] == CheckByte(e.name)
  }

  ghost predicate Filled(t: Table, m: Machine, base: Word64, strings: seq<Entry>) {
    FilledTo(t, m, base, strings, |strings|)
  }

  /** A perfect hash of these strings. */
  ghost predicate HashFor(t: PerfectHash, m: Machine, strings: seq<Entry>) {
    && Shaped(t) && Injective(t, m, Names(strings))
    && (t.shift < 64 <==> |strings| >= 2) && (t.shift == 64 <==> t.capacity == 1)
  }

  class StringHashT {
    const machine: Machine
    var table: Table

    constructor (machine: Machine)
      ensures this.machine == machine && table == EMPTY
    {
      this.machine := machine;
      table := EMPTY;
    }

    /** write: build the hash, then put each string's offset and check byte in
        its slot. */
    method Write(base: Word64, remaining: nat, strings: seq<Entry>, steps: nat) returns (r: Outcome)
      requires DistinctNames(strings) && |strings| <= 0x4000_0000
      modifies this
      ensures r.Written? && strings == [] ==> table == EMPTY
      ensures r.Written? && strings != [] ==>
                Filled(table, machine, base, strings) && StringsInside(table.hash, remaining)
      ensures r.Written? && |strings| >= 2 ==> table.hash.shift < 64
      ensures r.TooSmall? <==>
                || remaining < Start(table.hash, Tab(0))
                || (r !in {GaveUp, HashFailed} && strings != [] && !StringsInside(table.hash, remaining))
      ensures r.OffsetTooBig? ==> exists k :: 0 <= k < |strings| && !Fits(Offset(strings[k].addr, base))
      ensures r.Written? ==> forall k :: 0 <= k < |strings| ==> Fits(Offset(strings[k].addr, base))
      ensures r.HashFailed? ==> |strings| >= 2 && SearchedSome(machine, Names(strings), steps, Failed)
      ensures r.GaveUp? ==> strings != [] && (steps > 0 ==> |strings| >= 2)
      ensures r.GaveUp? ==> SearchedSome(machine, Names(strings), steps, OutOfSteps)
      ensures strings != [] && r in {Written, HashFailed, OffsetTooBig, OutsideTable} ==>
                exists salt: Word64 :: Separates(machine, Names(strings), salt)
      ensures strings != [] && r in {Written, OffsetTooBig, OutsideTable} ==>
                SearchedSome(machine, Names(strings), steps, Found)
      ensures |strings| >= 2 ==> !r.OutsideTable?
      ensures |strings| == 1 && r in {Written, OutsideTable} ==>
                (r.Written? <==> machine.past(machine.lookup(strings[0].name, table.hash.salt)) % 0x1_0000_0000 == 0)
    {
      if HEADER_SIZE > remaining { return TooSmall; }
      if |strings| == 0 { table := EMPTY; return Written; }
      var found := SetHeader(strings, steps);
      if found.OutOfSteps? { return GaveUp; }
      if found.Failed? { return HashFailed; }
      r := WriteBody(base, remaining, strings);
    }

    /** The header, with the perfect hash of the strings. */
    method SetHeader(strings: seq<Entry>, steps: nat) returns (found: Search)
      requires 0 < |strings| <= 0x4000_0000
      modifies this`table
      ensures found.Found? ==> HashFor(table.hash, machine, strings)
      ensures found.Failed? ==> |strings| >= 2
      ensures found.OutOfSteps? && steps > 0 ==> |strings| >= 2
      ensures SearchedSome(machine, Names(strings), steps, found)
      ensures !found.OutOfSteps? ==> exists salt: Word64 :: Separates(machine, Names(strings), salt)
    {
      var hash;
      ghost var width;
      hash, found, width := MakePerfect(machine, Names(strings), steps);
      assert Searched(machine, Names(strings), steps, width, found);
      if hash.capacity != 0 { table := table.(hash := hash); }
    }

    /** Everything after the header. */
    method WriteBody(base: Word64, remaining: nat, strings: seq<Entry>) returns (r: Outcome)
      requires DistinctNames(strings) && strings != [] && HashFor(table.hash, machine, strings)
      modifies this`table
      ensures r in {Written, TooSmall, OffsetTooBig, OutsideTable} && table.hash == old(table.hash)
      ensures r.Written? ==> Filled(table, machine, base, strings)
      ensures r.TooSmall? <==> !StringsInside(table.hash, remaining)
      ensures r.OffsetTooBig? ==> exists k :: 0 <= k < |strings| && !Fits(Offset(strings[k].addr, base))
      ensures r.Written? ==> forall k :: 0 <= k < |strings| ==> Fits(Offset(strings[k].addr, base))
      ensures |strings| >= 2 ==> !r.OutsideTable?
      ensures |strings| == 1 && r in {Written, OutsideTable} ==>
                (r.Written? <==> machine.past(machine.lookup(strings[0].name, table.hash.salt)) % 0x1_0000_0000 == 0)
    {
      var hash := table.hash;
      StringsFit(hash, remaining);
      if TableSize(hash) > remaining { return TooSmall; }
      table := Table(hash, seq(hash.capacity, _ => 0), seq(hash.capacity, _ => 0));
      r := WriteStrings(base, strings);
      if |strings| == 1 { OneStringTable(hash, machine, strings[0].name); }
      if r.Written? { HeldOffsetsFit(table, machine, base, strings); }
    }

    /** The loop over the strings. */
    method WriteStrings(base: Word64, strings: seq<Entry>) returns (r: Outcome)
      requires FilledTo(table, machine, base, strings, 0) && Injective(table.hash, machine, Names(strings))
      requires forall h :: 0 <= h < |table.offsets| ==> table.offsets[h] == 0
      modifies this`table
      ensures r in {Written, OffsetTooBig, OutsideTable} && table.hash == old(table.hash)
      ensures r.Written? ==> Filled(table, machine, base, strings)
      ensures r.OffsetTooBig? ==> exists k :: 0 <= k < |strings| && !Fits(Offset(strings[k].addr, base))
      ensures r.OutsideTable? ==> table.hash.shift >= 64
      ensures r.OutsideTable? ==>
                exists k :: 0 <= k < |strings| && HashIndex(table.hash, machine, strings[k].name) >= table.hash.capacity
    {
      for i := 0 to |strings|
        invariant table.hash == old(table.hash) && FilledTo(table, machine, base, strings, i)
      {
        var offset := Offset(strings[i].addr, base);
        if !Fits(offset) { return OffsetTooBig; }
        var h := HashIndex(table.hash, machine, strings[i].name);
        if table.hash.shift < 64 { HashInBounds(table.hash, machine, strings[i].name); }
        if h >= table.hash.capacity { return OutsideTable; }
        FillOne(table, machine, base, strings, i);
        table := table.(offsets := table.offsets[h := offset],
                        checkbytes := table.checkbytes[h := CheckByte(strings[i].name)]);
      }
      return Written;
    }
  }

  lemma HeldOffsetsFit(t: Table, m: Machine, base: Word64, strings: seq<Entry>)
    requires Filled(t, m, base, strings)
    ensures forall k :: 0 <= k < |strings| ==> Fits(Offset(strings[k].addr, base))
  {
    forall k | 0 <= k < |strings| ensures Fits(Offset(strings[k].addr, base)) { assert Holds(t, m, base, strings[k]); }
  }

  /** Filling the slot of string i disturbs no earlier string. */
  lemma FillOne(t: Table, m: Machine, base: Word64, strings: seq<Entry>, i: nat)
    requires i < |strings| && FilledTo(t, m, base, strings, i) && Injective(t.hash, m, Names(strings))
    requires Fits(Offset(strings[i].addr, base)) && HashIndex(t.hash, m, strings[i].name) < t.hash.capacity
    ensures var h := HashIndex(t.hash, m, strings[i].name);
            FilledTo(Table(t.hash, t.checkbytes[h := CheckByte(strings[i].name)],
                           t.offsets[h := Offset(strings[i].addr, base)]),
                     m, base, strings, i + 1)
  {
    var h := HashIndex(t.hash, m, strings[i].name);
    var t' := Table(t.hash, t.checkbytes[h := CheckByte(strings[i].name)],
                    t.offsets[h := Offset(strings[i].addr, base)]);
    forall k | 0 <= k < i ensures Holds(t', m, base, strings[k]) {
      assert Holds(t, m, base, strings[k]);
      assert Names(strings)[k] == strings[k].name && Names(strings)[i] == strings[i].name;
    }
    assert Holds(t', m, base, strings[i]);
    forall g | 0 <= g < |t'.offsets| && t'.offsets[g] != 0
      ensures exists k :: 0 <= k < i + 1 && HashIndex(t'.hash, m, strings[k].name) == g
    {
      if g != h {
        var k :| 0 <= k < i && HashIndex(t.hash, m, strings[k].name) == g;
        assert HashIndex(t'.hash, m, strings[k].name) == g;
      }
    }
  }

  // -------------------------------------------------------------- getIndex

  /** The bytes at each string's address are that string. */
  ghost predicate Loaded(memory: Word64 -> string, strings: seq<Entry>) {
    forall k :: 0 <= k < |strings| ==> memory(strings[k].addr) == strings[k].name
  }

  /** getIndex: the slot of a string, or INDEX_NOT_FOUND. */
  function GetIndex(t: Table, m: Machine, base: Word64, memory: Word64 -> string, key: string): nat
    requires Shaped(t.hash) && |t.checkbytes| == |t.offsets| == t.hash.capacity
    requires HashIndex(t.hash, m, key) < t.hash.capacity
    requires forall h :: 0 <= h < |t.offsets| ==> Fits(t.offsets[h])
  {
    var h := HashIndex(t.hash, m, key);
    if t.checkbytes[h] != CheckByte(key) then INDEX_NOT_FOUND
    else if t.offsets[h] == 0 then INDEX_NOT_FOUND
    else if memory(Target(base, t.offsets[h])) != key then INDEX_NOT_FOUND
    else h
  }

  ghost predicate Stored(strings: seq<Entry>, base: Word64, key: string) {
    exists k :: 0 <= k < |strings| && strings[k].name == key && strings[k].addr != base
  }

  lemma StoredOffsetsFit(t: Table, m: Machine, base: Word64, strings: seq<Entry>)
    requires Filled(t, m, base, strings)
    ensures forall h :: 0 <= h < |t.offsets| ==> Fits(t.offsets[h])
  {
  }

  /** getIndex answers for every string: it finds exactly the strings that were
      written, save one that starts at the table's own address, and the slot it
      gives leads to that string's address. */
  lemma GetIndexExact(t: Table, m: Machine, base: Word64, memory: Word64 -> string, strings: seq<Entry>, key: string)
    requires Filled(t, m, base, strings) && DistinctNames(strings) && Loaded(memory, strings)
    requires HashIndex(t.hash, m, key) < t.hash.capacity
    requires forall h :: 0 <= h < |t.offsets| ==> Fits(t.offsets[h])
    ensures GetIndex(t, m, base, memory, key) != INDEX_NOT_FOUND <==> Stored(strings, base, key)
    ensures Stored(strings, base, key) ==>
              var h := GetIndex(t, m, base, memory, key);
              h < t.hash.capacity && h == HashIndex(t.hash, m, key) && Entry(key, Target(base, t.offsets[h])) in strings
  {
    Pow2Mono(31, 32);
    PowerOfTwo.WordIsPow2();
    var h := HashIndex(t.hash, m, key);
    if k :| 0 <= k < |strings| && strings[k].name == key {
      assert Holds(t, m, base, strings[k]);
      OffsetRoundTrip(strings[k].addr, base);
      assert strings[k] == Entry(key, strings[k].addr);
    } else if t.offsets[h] != 0 {
      var k :| 0 <= k < |strings| && HashIndex(t.hash, m, strings[k].name) == h;
      assert Holds(t, m, base, strings[k]);
      OffsetRoundTrip(strings[k].addr, base);
    }
  }

  /** A table of two strings or more answers for every key at all. */
  lemma EveryKeyAnswered(t: Table, m: Machine, base: Word64, memory: Word64 -> string, strings: seq<Entry>, key: string)
    requires Filled(t, m, base, strings) && DistinctNames(strings) && Loaded(memory, strings) && t.hash.shift < 64
    ensures HashIndex(t.hash, m, key) < t.hash.capacity && forall h :: 0 <= h < |t.offsets| ==> Fits(t.offsets[h])
    ensures GetIndex(t, m, base, memory, key) != INDEX_NOT_FOUND <==> Stored(strings, base, key)
  {
    HashInBounds(t.hash, m, key);
    StoredOffsetsFit(t, m, base, strings);
    GetIndexExact(t, m, base, memory, strings, key);
  }

  /** No two written strings share a slot. */
  lemma SlotsApart(t: Table, m: Machine, base: Word64, memory: Word64 -> string, strings: seq<Entry>, a: string,
                   b: string)
    requires Filled(t, m, base, strings) && Loaded(memory, strings)
    requires Stored(strings, base, a) && Stored(strings, base, b) && HashIndex(t.hash, m, a) == HashIndex(t.hash, m, b)
    ensures a == b
  {
    var i :| 0 <= i < |strings| && strings[i].name == a && strings[i].addr != base;
    var j :| 0 <= j < |strings| && strings[j].name == b && strings[j].addr != base;
    assert Holds(t, m, base, strings[i]) && Holds(t, m, base, strings[j]);
    OffsetRoundTrip(strings[i].addr, base);
    OffsetRoundTrip(strings[j].addr, base);
  }

  // ------------------------------------------------- tables of one string

  /** A table built for one string has a single slot, and the reader's shift
      count is 64.  The reader finds that slot if and only if the machine's
      shift by 64 leaves nothing in the low 32 bits. */
  lemma OneStringTable(t: PerfectHash, m: Machine, key: string)
    requires Shaped(t) && t.shift == 64 && t.capacity == 1
    ensures HashIndex(t, m, key) < t.capacity <==> m.past(m.lookup(key, t.salt)) % 0x1_0000_0000 == 0
  {
    var val := m.lookup(key, t.salt);
    var low := m.past(val) % 0x1_0000_0000;
    assert t.scramble[t.tab[val % (t.mask + 1)]] == 0;
    assert Xor(0, 0) == 0;
    if Xor(low, 0) == 0 { XorInjective(low, 0, 0); }
  }
}
