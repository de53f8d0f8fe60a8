/** objc_clsopt_t: the class table, where one name may belong to several
    classes. */
module ClassTable {
  import opened PerfectHashSpec
  import opened StringHash
  import opened StringTable
  import opened TableLayout

  /** An entry of class_map, a multimap. */
  datatype ClassEntry = ClassEntry(name: string, cls: Word64, hi: Word64)

  /** objc_classheader_t */
  datatype ClassHeader = ClassHeader(clsOffset: int, hiOffset: int) {
    predicate IsDuplicate() { clsOffset % 2 == 1 }

    /** The arithmetic shift of a signed field, as an unsigned 32-bit number. */
    function DuplicateCount(): nat { clsOffset / 2 % 0x1_0000_0000 }
    function DuplicateIndex(): nat { hiOffset % 0x1_0000_0000 }
  }

  /** A header as it is kept in memory. */
  type Header32 = h: ClassHeader | Fits(h.clsOffset) && Fits(h.hiOffset) witness ClassHeader(0, 0)

  datatype ClassOutcome = Done | BadStrings(error: Outcome) | NoRoom | Busted
                        | ClassOffsetTooBig | HeaderOffsetTooBig | NoSlot

  /** equal_range: the classes of this name, in the map's order. */
  function Range(classes: seq<ClassEntry>, name: string): seq<ClassEntry> {
    if classes == [] then []
    else if classes[0].name == name then [classes[0]] + Range(classes[1..], name)
    else Range(classes[1..], name)
  }

  lemma {:induction false} RangeHas(classes: seq<ClassEntry>, k: nat)
    requires k < |classes|
    ensures classes[k] in Range(classes, classes[k].name) && |Range(classes, classes[k].name)| <= |classes|
  {
    RangeShort(classes, classes[k].name);
    if k > 0 { RangeHas(classes[1..], k - 1); }
  }

  lemma {:induction false} RangeShort(classes: seq<ClassEntry>, name: string)
    ensures |Range(classes, name)| <= |classes|
  {
    if classes != [] { RangeShort(classes[1..], name); }
  }

  function HeaderOf(e: ClassEntry, base: Word64): ClassHeader {
    ClassHeader(Offset(e.cls, base), Offset(e.hi, base))
  }

  predicate HeaderFits(e: ClassEntry, base: Word64) { Fits(Offset(e.cls, base)) && Fits(Offset(e.hi, base)) }

  /** The list d is stored from dest on. */
  ghost predicate Listed(duplicates: map<nat, Header32>, base: Word64, d: seq<ClassEntry>, dest: nat, n: nat) {
    n <= |d| && forall q {:trigger d[q]} :: 0 <= q < n ==>
      HeaderFits(d[q], base) && dest + q in duplicates && duplicates[dest + q] == HeaderOf(d[q], base)
  }

  /** What the header of a name with classes d says. */
  ghost predicate Entered(header: ClassHeader, duplicates: map<nat, Header32>, count: nat, base: Word64,
                          d: seq<ClassEntry>) {
    if |d| == 1 then HeaderFits(d[0], base) && header == HeaderOf(d[0], base)
    else
      && header.clsOffset == 2 * |d| + 1 && 0 <= header.hiOffset && header.hiOffset + |d| <= count
      && Listed(duplicates, base, d, header.hiOffset, |d|)
  }

  /** Entries below n are kept. */
  ghost predicate Extends(dup0: map<nat, Header32>, dup1: map<nat, Header32>, n: nat) {
    forall q: nat :: q < n && q in dup0 ==> q in dup1 && dup1[q] == dup0[q]
  }

  /** Later lists are put past the count, so an entered name stays entered. */
  lemma EnteredKept(header: ClassHeader, dup0: map<nat, Header32>, count0: nat, dup1: map<nat, Header32>, count1: nat,
                    base: Word64, d: seq<ClassEntry>)
    requires Entered(header, dup0, count0, base, d) && count0 <= count1
    requires Extends(dup0, dup1, count0)
    ensures Entered(header, dup1, count1, base, d)
  {
  }

  /** The lists of two duplicated names do not overlap. */
  predicate Apart(h1: ClassHeader, n1: nat, h2: ClassHeader, n2: nat) {
    h1.hiOffset + n1 <= h2.hiOffset || h2.hiOffset + n2 <= h1.hiOffset
  }

  /** A finished string table with everything its reader depends on. */
  datatype Context = Context(table: Table, machine: Machine, base: Word64, memory: Word64 -> string,
                             strings: seq<Entry>)

  ghost predicate Ready(c: Context) {
    && Filled(c.table, c.machine, c.base, c.strings) && DistinctNames(c.strings) && Loaded(c.memory, c.strings)
    && forall h :: 0 <= h < |c.table.offsets| ==> Fits(c.table.offsets[h])
  }

  /** The slot of each string in the table. */
  ghost function SlotMap(c: Context): string -> nat
    requires Ready(c)
  {
    (name: string) => HashIndex(c.table.hash, c.machine, name)
  }

  /** The names of the first n classes are in the string table. */
  ghost predicate Known(c: Context, classes: seq<ClassEntry>, n: nat) {
    n <= |classes| && forall k :: 0 <= k < n ==> Stored(c.strings, c.base, classes[k].name)
  }

  lemma KnownApart(c: Context, classes: seq<ClassEntry>, n: nat)
    requires Ready(c) && Known(c, classes, n)
    ensures OwnSlots(SlotMap(c), classes, n)
  {
    forall j, k | 0 <= j < n && 0 <= k < n && SlotMap(c)(classes[j].name) == SlotMap(c)(classes[k].name)
      ensures classes[j].name == classes[k].name
    {
      SlotsApart(c.table, c.machine, c.base, c.memory, c.strings, classes[j].name, classes[k].name);
    }
  }

  /** Different names have different slots. */
  ghost predicate OwnSlots(slot: string -> nat, classes: seq<ClassEntry>, n: nat) {
    n <= |classes| && forall j, k :: 0 <= j < n && 0 <= k < n && slot(classes[j].name) == slot(classes[k].name) ==>
      classes[j].name == classes[k].name
  }

  ghost function RangeMap(classes: seq<ClassEntry>): string -> seq<ClassEntry> {
    (name: string) => Range(classes, name)
  }

  ghost predicate AllEntered(slot: string -> nat, range: string -> seq<ClassEntry>, base: Word64,
                             classes: seq<ClassEntry>, n: nat,
                             headers: seq<ClassHeader>, count: nat, duplicates: map<nat, Header32>) {
    n <= |classes| && forall k {:trigger classes[k]} :: 0 <= k < n ==>
      && slot(classes[k].name) < |headers|
      && Entered(headers[slot(classes[k].name)], duplicates, count, base, range(classes[k].name))
  }

  ghost predicate OnlyEntered(slot: string -> nat, classes: seq<ClassEntry>, n: nat, headers: seq<ClassHeader>) {
    n <= |classes| && forall h :: 0 <= h < |headers| && headers[h] != ClassHeader(0, 0) ==>
      exists k :: 0 <= k < n && slot(classes[k].name) == h
  }

  /** The lists of the first n classes do not overlap. */
  ghost predicate AllApart(slot: string -> nat, range: string -> seq<ClassEntry>, classes: seq<ClassEntry>, n: nat,
                           headers: seq<ClassHeader>) {
    n <= |classes| && forall j, k :: 0 <= j < n && 0 <= k < n && classes[j].name != classes[k].name ==>
      ListsApart(slot, range, classes, headers, j, k)
  }

  ghost predicate ListsApart(slot: string -> nat, range: string -> seq<ClassEntry>, classes: seq<ClassEntry>,
                             headers: seq<ClassHeader>, j: nat, k: nat)
    requires j < |classes| && k < |classes|
  {
    var sj, sk := slot(classes[j].name), slot(classes[k].name);
    var dj, dk := range(classes[j].name), range(classes[k].name);
    sj < |headers| && sk < |headers| && (|dj| > 1 && |dk| > 1 ==> Apart(headers[sj], |dj|, headers[sk], |dk|))
  }

  /** The first n classes have been entered, and nothing else. */
  ghost predicate EnteredTo(c: Context, classes: seq<ClassEntry>, n: nat,
                            headers: seq<ClassHeader>, count: nat, duplicates: map<nat, Header32>) {
    && Ready(c) && |headers| == c.table.hash.capacity && Known(c, classes, n)
    && AllEntered(SlotMap(c), RangeMap(classes), c.base, classes, n, headers, count, duplicates)
    && OnlyEntered(SlotMap(c), classes, n, headers)
    && AllApart(SlotMap(c), RangeMap(classes), classes, n, headers)
  }

  lemma EnterNext(slot: string -> nat, range: string -> seq<ClassEntry>, base: Word64, classes: seq<ClassEntry>, n: nat,
                  headers: seq<ClassHeader>, count: nat, duplicates: map<nat, Header32>,
                  header: ClassHeader, count': nat, duplicates': map<nat, Header32>)
    requires n < |classes| && OwnSlots(slot, classes, n + 1) && slot(classes[n].name) < |headers|
    requires AllEntered(slot, range, base, classes, n, headers, count, duplicates)
    requires count <= count' && Extends(duplicates, duplicates', count)
    requires Entered(header, duplicates', count', base, range(classes[n].name))
    ensures AllEntered(slot, range, base, classes, n + 1, headers[slot(classes[n].name) := header], count', duplicates')
  {
    var headers' := headers[slot(classes[n].name) := header];
    forall k | 0 <= k < n + 1
      ensures slot(classes[k].name) < |headers'|
      ensures Entered(headers'[slot(classes[k].name)], duplicates', count', base, range(classes[k].name))
    {
      if k < n && slot(classes[k].name) != slot(classes[n].name) {
        EnteredKept(headers[slot(classes[k].name)], duplicates, count, duplicates', count', base,
                    range(classes[k].name));
      }
    }
  }

  lemma OnlyNext(slot: string -> nat, classes: seq<ClassEntry>, n: nat, headers: seq<ClassHeader>, header: ClassHeader)
    requires n < |classes| && slot(classes[n].name) < |headers| && OnlyEntered(slot, classes, n, headers)
    ensures OnlyEntered(slot, classes, n + 1, headers[slot(classes[n].name) := header])
  {
    var headers' := headers[slot(classes[n].name) := header];
    forall g | 0 <= g < |headers'| && headers'[g] != ClassHeader(0, 0)
      ensures exists k :: 0 <= k < n + 1 && slot(classes[k].name) == g
    {
      if g == slot(classes[n].name) {
        assert slot(classes[n].name) == g;
      } else {
        assert headers[g] != ClassHeader(0, 0);
      }
    }
  }

  /** A list put at the end of the others overlaps none of them. */
  lemma ApartNext(slot: string -> nat, range: string -> seq<ClassEntry>, base: Word64, classes: seq<ClassEntry>, n: nat,
                  headers: seq<ClassHeader>, count: nat, duplicates: map<nat, Header32>, header: ClassHeader)
    requires n < |classes| && OwnSlots(slot, classes, n + 1) && slot(classes[n].name) < |headers|
    requires AllEntered(slot, range, base, classes, n, headers, count, duplicates)
             && AllApart(slot, range, classes, n, headers)
    requires |range(classes[n].name)| > 1 ==> header.hiOffset == count
    ensures AllApart(slot, range, classes, n + 1, headers[slot(classes[n].name) := header])
  {
    var headers' := headers[slot(classes[n].name) := header];
    forall j, k | 0 <= j < n + 1 && 0 <= k < n + 1 && classes[j].name != classes[k].name
      ensures ListsApart(slot, range, classes, headers', j, k)
    {
      if classes[j].name == classes[n].name {
        ApartFrom(slot, range, base, classes, n, headers, count, duplicates, header, k);
      } else if classes[k].name == classes[n].name {
        ApartFrom(slot, range, base, classes, n, headers, count, duplicates, header, j);
      } else {
        assert ListsApart(slot, range, classes, headers, j, k);
      }
    }
  }

  lemma ApartFrom(slot: string -> nat, range: string -> seq<ClassEntry>, base: Word64, classes: seq<ClassEntry>, n: nat,
                  headers: seq<ClassHeader>, count: nat, duplicates: map<nat, Header32>, header: ClassHeader, k: nat)
    requires k < n < |classes| && OwnSlots(slot, classes, n + 1) && slot(classes[n].name) < |headers|
    requires AllEntered(slot, range, base, classes, n, headers, count, duplicates) && classes[k].name != classes[n].name
    requires |range(classes[n].name)| > 1 ==> header.hiOffset == count
    ensures ListsApart(slot, range, classes, headers[slot(classes[n].name) := header], k, n)
    ensures ListsApart(slot, range, classes, headers[slot(classes[n].name) := header], n, k)
  {
  }

  /** Entering the name of class n in its slot. */
  lemma EnterOne(c: Context, classes: seq<ClassEntry>, n: nat, headers: seq<ClassHeader>, count: nat,
                 duplicates: map<nat, Header32>, header: ClassHeader, count': nat, duplicates': map<nat, Header32>)
    requires n < |classes| && EnteredTo(c, classes, n, headers, count, duplicates)
    requires Stored(c.strings, c.base, classes[n].name) && SlotMap(c)(classes[n].name) < |headers|
    requires count <= count' && Extends(duplicates, duplicates', count)
    requires Entered(header, duplicates', count', c.base, RangeMap(classes)(classes[n].name))
    requires |RangeMap(classes)(classes[n].name)| > 1 ==> header.hiOffset == count
    ensures EnteredTo(c, classes, n + 1, headers[SlotMap(c)(classes[n].name) := header], count', duplicates')
  {
    KnownApart(c, classes, n + 1);
    EnterNext(SlotMap(c), RangeMap(classes), c.base, classes, n, headers, count, duplicates, header, count',
              duplicates');
    OnlyNext(SlotMap(c), classes, n, headers, header);
    ApartNext(SlotMap(c), RangeMap(classes), c.base, classes, n, headers, count, duplicates, header);
  }

  /** A slot already marked belongs to this very name. */
  lemma AlreadyEntered(c: Context, classes: seq<ClassEntry>, n: nat, headers: seq<ClassHeader>, count: nat,
                       duplicates: map<nat, Header32>)
    requires n < |classes| && EnteredTo(c, classes, n, headers, count, duplicates)
    requires Stored(c.strings, c.base, classes[n].name) && SlotMap(c)(classes[n].name) < |headers|
    requires headers[SlotMap(c)(classes[n].name)].clsOffset != 0
    ensures EnteredTo(c, classes, n + 1, headers, count, duplicates)
  {
    KnownApart(c, classes, n + 1);
    var k := MarkedBy(SlotMap(c), classes, n, headers);
    SameName(SlotMap(c), RangeMap(classes), c.base, classes, n, headers, count, duplicates, k);
  }

  lemma MarkedBy(slot: string -> nat, classes: seq<ClassEntry>, n: nat, headers: seq<ClassHeader>) returns (k: nat)
    requires n < |classes| && OwnSlots(slot, classes, n + 1) && OnlyEntered(slot, classes, n, headers)
    requires slot(classes[n].name) < |headers| && headers[slot(classes[n].name)].clsOffset != 0
    ensures k < n && classes[k].name == classes[n].name
  {
    var h := slot(classes[n].name);
    assert headers[h] != ClassHeader(0, 0);
    k :| 0 <= k < n && slot(classes[k].name) == h;
  }

  lemma SameName(slot: string -> nat, range: string -> seq<ClassEntry>, base: Word64, classes: seq<ClassEntry>, n: nat,
                 headers: seq<ClassHeader>, count: nat, duplicates: map<nat, Header32>, k: nat)
    requires k < n < |classes| && classes[k].name == classes[n].name
    requires AllEntered(slot, range, base, classes, n, headers, count, duplicates)
    requires OnlyEntered(slot, classes, n, headers) && AllApart(slot, range, classes, n, headers)
    ensures AllEntered(slot, range, base, classes, n + 1, headers, count, duplicates)
    ensures OnlyEntered(slot, classes, n + 1, headers) && AllApart(slot, range, classes, n + 1, headers)
  {
    forall i, j | 0 <= i < n + 1 && 0 <= j < n + 1 && classes[i].name != classes[j].name
      ensures ListsApart(slot, range, classes, headers, i, j)
    {
      assert ListsApart(slot, range, classes, headers, if i == n then k else i, if j == n then k else j);
    }
  }

  /** equal_range of the name of class i: it has class i at least. */
  method EqualRange(classes: seq<ClassEntry>, i: nat) returns (d: seq<ClassEntry>)
    requires i < |classes|
    ensures RangeMap(classes)(classes[i].name) == d
    ensures |d| == 1 ==> d == [classes[i]]
    ensures |d| > 0
  {
    d := Range(classes, classes[i].name);
    RangeHas(classes, i);
  }

  // --------------------------------------------- how many duplicates there are

  lemma {:induction false} RangeSnoc(classes: seq<ClassEntry>, e: ClassEntry, name: string)
    ensures Range(classes + [e], name) == Range(classes, name) + if e.name == name then [e] else []
  {
    if classes == [] {
      assert [e][1..] == [];
    } else {
      assert (classes + [e])[1..] == classes[1..] + [e];
      RangeSnoc(classes[1..], e, name);
    }
  }

  /** How many of the first m classes have this name. */
  function CountName(classes: seq<ClassEntry>, name: string, m: nat): nat
    requires m <= |classes|
  {
    if m == 0 then 0 else CountName(classes, name, m - 1) + if classes[m - 1].name == name then 1 else 0
  }

  lemma {:induction false} RangeCount(classes: seq<ClassEntry>, name: string, m: nat)
    requires m <= |classes|
    ensures |Range(classes[..m], name)| == CountName(classes, name, m)
  {
    if m > 0 {
      RangeCount(classes, name, m - 1);
      RangeSnoc(classes[..m - 1], classes[m - 1], name);
      assert classes[..m - 1] + [classes[m - 1]] == classes[..m];
    }
  }

  predicate Named(classes: seq<ClassEntry>, n: nat, name: string)
    requires n <= |classes|
  {
    exists j :: 0 <= j < n && classes[j].name == name
  }

  /** How many of the first m classes have the name of one of the first n. */
  function Covered(classes: seq<ClassEntry>, n: nat, m: nat): (c: nat)
    requires n <= |classes| && m <= |classes|
    ensures c <= m
    decreases m
  {
    if m == 0 then 0 else Covered(classes, n, m - 1) + if Named(classes, n, classes[m - 1].name) then 1 else 0
  }

  lemma {:induction false} CoveredGrows(classes: seq<ClassEntry>, n: nat, m: nat)
    requires n < |classes| && m <= |classes|
    ensures Covered(classes, n, m) <= Covered(classes, n + 1, m)
    ensures !Named(classes, n, classes[n].name) ==>
              Covered(classes, n + 1, m) == Covered(classes, n, m) + CountName(classes, classes[n].name, m)
    decreases m
  {
    if m > 0 {
      CoveredGrows(classes, n, m - 1);
      var name := classes[m - 1].name;
      assert Named(classes, n + 1, name) <==> Named(classes, n, name) || name == classes[n].name;
    }
  }

  /** The duplicates written so far are among the classes of the names so far. */
  ghost predicate Bounded(start: nat, count: nat, classes: seq<ClassEntry>, n: nat) {
    n <= |classes| && count <= start + Covered(classes, n, |classes|)
  }

  lemma BoundedKept(start: nat, count: nat, classes: seq<ClassEntry>, n: nat)
    requires n < |classes| && Bounded(start, count, classes, n)
    ensures Bounded(start, count, classes, n + 1)
  {
    CoveredGrows(classes, n, |classes|);
  }

  lemma BoundedList(start: nat, count: nat, classes: seq<ClassEntry>, n: nat, d: seq<ClassEntry>)
    requires n < |classes| && Bounded(start, count, classes, n)
    requires !Named(classes, n, classes[n].name) && d == Range(classes, classes[n].name)
    ensures Bounded(start, count + |d|, classes, n + 1)
  {
    CoveredGrows(classes, n, |classes|);
    RangeCount(classes, classes[n].name, |classes|);
    assert classes[..|classes|] == classes;
  }

  /** A duplicated name whose slot is not marked has not been met before. */
  lemma NewName(c: Context, classes: seq<ClassEntry>, n: nat, headers: seq<ClassHeader>, count: nat,
                duplicates: map<nat, Header32>)
    requires n < |classes| && EnteredTo(c, classes, n, headers, count, duplicates)
    requires SlotMap(c)(classes[n].name) < |headers| && headers[SlotMap(c)(classes[n].name)].clsOffset == 0
    requires |RangeMap(classes)(classes[n].name)| > 1
    ensures !Named(classes, n, classes[n].name)
  {
    Unmet(SlotMap(c), RangeMap(classes), c.base, classes, n, headers, count, duplicates);
  }

  lemma Unmet(slot: string -> nat, range: string -> seq<ClassEntry>, base: Word64, classes: seq<ClassEntry>, n: nat,
              headers: seq<ClassHeader>, count: nat, duplicates: map<nat, Header32>)
    requires n < |classes| && AllEntered(slot, range, base, classes, n, headers, count, duplicates)
    requires slot(classes[n].name) < |headers| && headers[slot(classes[n].name)].clsOffset == 0
             && |range(classes[n].name)| > 1
    ensures !Named(classes, n, classes[n].name)
  {
  }

  // ------------------------------------------------------------------ errors

  /** Every error of the loop over the classes has a class to blame. */
  ghost predicate Blamed(r: ClassOutcome, c: Context, classes: seq<ClassEntry>) {
    && !r.BadStrings?
    && (r.Busted? ==> exists k :: 0 <= k < |classes| && !Stored(c.strings, c.base, classes[k].name))
    && (r.ClassOffsetTooBig? ==> exists k :: 0 <= k < |classes| && !Fits(Offset(classes[k].cls, c.base)))
    && (r.HeaderOffsetTooBig? ==> exists k :: 0 <= k < |classes| && !Fits(Offset(classes[k].hi, c.base)))
    && (r.NoSlot? ==> Ready(c) && c.table.hash.shift >= 64
                      && exists k :: 0 <= k < |classes| && SlotMap(c)(classes[k].name) >= c.table.hash.capacity)
  }

  /** Success has none. */
  ghost predicate Blameless(base: Word64, strings: seq<Entry>, classes: seq<ClassEntry>) {
    forall k :: 0 <= k < |classes| ==> Stored(strings, base, classes[k].name) && HeaderFits(classes[k], base)
  }

  lemma EnteredBlameless(c: Context, classes: seq<ClassEntry>, headers: seq<ClassHeader>, count: nat,
                         duplicates: map<nat, Header32>)
    requires EnteredTo(c, classes, |classes|, headers, count, duplicates)
    ensures Blameless(c.base, c.strings, classes)
  {
    forall k | 0 <= k < |classes| ensures HeaderFits(classes[k], c.base) {
      EnteredFitsAt(SlotMap(c), RangeMap(classes), c.base, classes, headers, count, duplicates, k);
    }
  }

  lemma EnteredFitsAt(slot: string -> nat, range: string -> seq<ClassEntry>, base: Word64, classes: seq<ClassEntry>,
                      headers: seq<ClassHeader>, count: nat, duplicates: map<nat, Header32>, k: nat)
    requires k < |classes| && range == RangeMap(classes)
    requires AllEntered(slot, range, base, classes, |classes|, headers, count, duplicates)
    ensures HeaderFits(classes[k], base)
  {
    RangeHas(classes, k);
    EnteredFits(headers[slot(classes[k].name)], duplicates, count, base, range(classes[k].name), classes[k]);
  }

  lemma EnteredFits(header: ClassHeader, duplicates: map<nat, Header32>, count: nat, base: Word64, d: seq<ClassEntry>,
                    e: ClassEntry)
    requires Entered(header, duplicates, count, base, d) && e in d
    ensures HeaderFits(e, base)
  {
  }

  lemma {:induction false} RangeFrom(classes: seq<ClassEntry>, name: string, q: nat) returns (k: nat)
    requires q < |Range(classes, name)|
    ensures k < |classes| && classes[k] == Range(classes, name)[q]
  {
    if classes[0].name == name && q == 0 {
      k := 0;
    } else {
      k := RangeFrom(classes[1..], name, if classes[0].name == name then q - 1 else q);
      k := k + 1;
    }
  }

  class ClsOpt {
    const machine: Machine
    const memory: Word64 -> string
    const names: StringHashT
    var classOffsets: seq<ClassHeader>
    var duplicateCount: nat
    var duplicates: map<nat, Header32>

    constructor (machine: Machine, memory: Word64 -> string, duplicateCount: nat)
      ensures fresh(names) && names.machine == machine && this.machine == machine && this.memory == memory
    {
      this.machine := machine;
      this.memory := memory;
      names := new StringHashT(machine);
      classOffsets, this.duplicateCount, duplicates := [], duplicateCount, map[];
    }

    function SizeWithoutDups(): nat
      reads names
    {
      TableSize(names.table.hash) + 8 * names.table.hash.capacity
    }

    function Size(): nat
      reads this, names
    {
      SizeWith(names.table.hash, duplicateCount)
    }

    /** write: the string table first, then a header per class name.  The
        duplicate count found in the section is only ever added to. */
    method Write(base: Word64, remaining: nat, strings: seq<Entry>, classes: seq<ClassEntry>, steps: nat)
      returns (r: ClassOutcome)
      requires DistinctNames(strings) && |strings| <= 0x4000_0000 && Loaded(memory, strings)
      requires names.machine == machine && |classes| <= 0x2000_0000
      modifies this, names
      ensures r.Done? && strings != [] ==>
                EnteredTo(Context(names.table, machine, base, memory, strings), classes, |classes|, classOffsets,
                          duplicateCount, duplicates)
      ensures r.Done? && strings == [] ==> classes == []
      ensures r.Done? && |strings| >= 2 ==> names.table.hash.shift < 64
      ensures r.Done? ==> duplicateCount <= old(duplicateCount) + |classes|
      ensures r.Done? ==> Blameless(base, strings, classes)
      ensures r.Done? ==> ClassesInside(names.table.hash, duplicateCount, remaining)
      ensures r.BadStrings? ==> !r.error.Written?
      ensures r.NoRoom? ==> !ClassesInside(names.table.hash, duplicateCount, remaining)
      ensures !r.BadStrings? && strings != [] ==>
                Blamed(r, Context(names.table, machine, base, memory, strings), classes)
      ensures r.NoSlot? ==> |strings| < 2 && classes != []
    {
      var o := names.Write(base, remaining, strings, steps);
      if !o.Written? { return BadStrings(o); }
      r := WriteHeaders(base, remaining, strings, classes);
    }

    /** The part of write that follows the string table. */
    method WriteHeaders(base: Word64, remaining: nat, strings: seq<Entry>, classes: seq<ClassEntry>)
      returns (r: ClassOutcome)
      requires DistinctNames(strings) && Loaded(memory, strings)
      requires if strings == [] then names.table == EMPTY else Filled(names.table, machine, base, strings)
      requires forall k :: 0 <= k < |strings| ==> Fits(Offset(strings[k].addr, base))
      requires |strings| >= 2 ==> names.table.hash.shift < 64
      modifies this
      ensures r.Done? && strings != [] ==>
                EnteredTo(Context(names.table, machine, base, memory, strings), classes, |classes|, classOffsets,
                          duplicateCount, duplicates)
      ensures r.Done? && strings == [] ==> classes == []
      ensures r.Done? ==> duplicateCount <= old(duplicateCount) + |classes|
      ensures r.Done? ==> Blameless(base, strings, classes)
      ensures r.Done? ==> ClassesInside(names.table.hash, duplicateCount, remaining)
      ensures r.NoRoom? ==> !ClassesInside(names.table.hash, duplicateCount, remaining)
      ensures !r.BadStrings? && (strings != [] ==>
                Blamed(r, Context(names.table, machine, base, memory, strings), classes))
      ensures r.NoSlot? ==> |strings| < 2 && classes != []
    {
      if SizeWithoutDups() > remaining {
        ClassesFit(names.table.hash, duplicateCount, remaining);
        return NoRoom;
      }
      if Size() > remaining {
        ClassesFit(names.table.hash, duplicateCount, remaining);
        return NoRoom;
      }
      classOffsets := seq(names.table.hash.capacity, _ => ClassHeader(0, 0));
      if strings == [] {
        ClassesFit(names.table.hash, duplicateCount, remaining);
        return if classes == [] then Done else NoSlot;
      }
      StoredOffsetsFit(names.table, machine, base, strings);
      ghost var c := Context(names.table, machine, base, memory, strings);
      r := WriteClasses(Context(names.table, machine, base, memory, strings), remaining, classes);
      ClassesFit(names.table.hash, duplicateCount, remaining);
      if r.Done? { EnteredBlameless(c, classes, classOffsets, duplicateCount, duplicates); }
    }

    method WriteClasses(c: Context, remaining: nat, classes: seq<ClassEntry>) returns (r: ClassOutcome)
      requires EnteredTo(c, classes, 0, classOffsets, duplicateCount, duplicates)
      requires SizeWith(c.table.hash, duplicateCount) <= remaining
      modifies this
      ensures r.Done? ==> EnteredTo(c, classes, |classes|, classOffsets, duplicateCount, duplicates)
      ensures r.Done? ==> duplicateCount <= old(duplicateCount) + |classes|
      ensures Blamed(r, c, classes) && (r.NoRoom? <==> SizeWith(c.table.hash, duplicateCount) > remaining)
    {
      for i := 0 to |classes|
        invariant EnteredTo(c, classes, i, classOffsets, duplicateCount, duplicates)
        invariant Bounded(old(duplicateCount), duplicateCount, classes, i)
        invariant SizeWith(c.table.hash, duplicateCount) <= remaining
      {
        r := WriteNext(c, remaining, classes, i, old(duplicateCount));
        if !r.Done? { return; }
      }
      return Done;
    }

    /** One round of the loop. */
    method WriteNext(c: Context, remaining: nat, classes: seq<ClassEntry>, i: nat, ghost start: nat)
      returns (r: ClassOutcome)
      requires i < |classes| && EnteredTo(c, classes, i, classOffsets, duplicateCount, duplicates)
      requires Bounded(start, duplicateCount, classes, i) && SizeWith(c.table.hash, duplicateCount) <= remaining
      modifies this
      ensures r.Done? ==> EnteredTo(c, classes, i + 1, classOffsets, duplicateCount, duplicates)
      ensures r.Done? ==> Bounded(start, duplicateCount, classes, i + 1)
      ensures Blamed(r, c, classes) && (r.NoRoom? <==> SizeWith(c.table.hash, duplicateCount) > remaining)
    {
      if c.table.hash.shift < 64 { HashInBounds(c.table.hash, c.machine, classes[i].name); }
      if HashIndex(c.table.hash, c.machine, classes[i].name) >= c.table.hash.capacity { return NoSlot; }
      var h := GetIndex(c.table, c.machine, c.base, c.memory, classes[i].name);
      GetIndexExact(c.table, c.machine, c.base, c.memory, c.strings, classes[i].name);
      if h == INDEX_NOT_FOUND { return Busted; }
      if classOffsets[h].clsOffset != 0 {
        AlreadyEntered(c, classes, i, classOffsets, duplicateCount, duplicates);
        BoundedKept(start, duplicateCount, classes, i);
        return Done;
      }
      r := WriteClass(c, remaining, classes, i, h, start);
    }

    /** One class name: its only class, or the list of its classes. */
    method WriteClass(c: Context, remaining: nat, classes: seq<ClassEntry>, i: nat, h: nat, ghost start: nat)
      returns (r: ClassOutcome)
      requires i < |classes| && EnteredTo(c, classes, i, classOffsets, duplicateCount, duplicates)
      requires Stored(c.strings, c.base, classes[i].name) && h == SlotMap(c)(classes[i].name) < |classOffsets|
      requires classOffsets[h].clsOffset == 0 && Bounded(start, duplicateCount, classes, i)
      requires SizeWith(c.table.hash, duplicateCount) <= remaining
      modifies this
      ensures r.Done? ==> EnteredTo(c, classes, i + 1, classOffsets, duplicateCount, duplicates)
      ensures r.Done? ==> Bounded(start, duplicateCount, classes, i + 1)
      ensures Blamed(r, c, classes) && (r.NoRoom? <==> SizeWith(c.table.hash, duplicateCount) > remaining)
    {
      var d := EqualRange(classes, i);
      if |d| == 1 {
        BoundedKept(start, duplicateCount, classes, i);
        r := WriteSingle(c, classes, i, h);
      } else {
        NewName(c, classes, i, classOffsets, duplicateCount, duplicates);
        BoundedList(start, duplicateCount, classes, i, d);
        r := WriteList(c, remaining, classes, i, h, d);
      }
    }

    method WriteSingle(c: Context, classes: seq<ClassEntry>, i: nat, h: nat) returns (r: ClassOutcome)
      requires i < |classes| && EnteredTo(c, classes, i, classOffsets, duplicateCount, duplicates)
      requires Stored(c.strings, c.base, classes[i].name) && h == SlotMap(c)(classes[i].name) < |classOffsets|
      requires RangeMap(classes)(classes[i].name) == [classes[i]]
      modifies this`classOffsets
      ensures r.Done? ==> EnteredTo(c, classes, i + 1, classOffsets, duplicateCount, duplicates)
      ensures Blamed(r, c, classes) && !r.NoRoom?
    {
      if !Fits(Offset(classes[i].cls, c.base)) { return ClassOffsetTooBig; }
      if !Fits(Offset(classes[i].hi, c.base)) { return HeaderOffsetTooBig; }
      EnterOne(c, classes, i, classOffsets, duplicateCount, duplicates, HeaderOf(classes[i], c.base), duplicateCount,
               duplicates);
      classOffsets := classOffsets[h := HeaderOf(classes[i], c.base)];
      return Done;
    }

    method WriteList(c: Context, remaining: nat, classes: seq<ClassEntry>, i: nat, h: nat, d: seq<ClassEntry>)
      returns (r: ClassOutcome)
      requires i < |classes| && EnteredTo(c, classes, i, classOffsets, duplicateCount, duplicates)
      requires Stored(c.strings, c.base, classes[i].name) && h == SlotMap(c)(classes[i].name) < |classOffsets|
      requires RangeMap(classes)(classes[i].name) == d && |d| > 1
      modifies this
      ensures r.Done? ==> EnteredTo(c, classes, i + 1, classOffsets, duplicateCount, duplicates)
      ensures duplicateCount == old(duplicateCount) + |d|
      ensures Blamed(r, c, classes) && (r.NoRoom? <==> SizeWith(c.table.hash, duplicateCount) > remaining)
    {
      var dest := duplicateCount;
      duplicateCount := duplicateCount + |d|;
      if SizeWith(c.table.hash, duplicateCount) > remaining { return NoRoom; }
      classOffsets := classOffsets[h := ClassHeader(2 * |d| + 1, dest)];
      r := WriteDuplicates(c, classes, classes[i].name, d, dest);
      if !r.Done? { return; }
      EnterOne(c, classes, i, old(classOffsets), dest, old(duplicates), ClassHeader(2 * |d| + 1, dest),
               duplicateCount, duplicates);
    }

    method WriteDuplicates(c: Context, ghost classes: seq<ClassEntry>, ghost name: string, d: seq<ClassEntry>,
                           dest: nat)
      returns (r: ClassOutcome)
      requires d == Range(classes, name)
      modifies this`duplicates
      ensures r.Done? ==> Listed(duplicates, c.base, d, dest, |d|)
      ensures Blamed(r, c, classes) && r in {Done, ClassOffsetTooBig, HeaderOffsetTooBig}
      ensures Extends(old(duplicates), duplicates, dest)
    {
      for q := 0 to |d|
        invariant Listed(duplicates, c.base, d, dest, q)
        invariant Extends(old(duplicates), duplicates, dest)
      {
        ghost var k := RangeFrom(classes, name, q);
        if !Fits(Offset(d[q].cls, c.base)) { return ClassOffsetTooBig; }
        if !Fits(Offset(d[q].hi, c.base)) { return HeaderOffsetTooBig; }
        duplicates := duplicates[dest + q := HeaderOf(d[q], c.base)];
      }
      return Done;
    }
  }

  // --------------------------------------------------------------- lookups

  /** The answer of getClassHeaderAndIndex: how many classes, and the only one
      with its header when there is one; 0 stands for NULL. */
  datatype Answer = Answer(count: nat, cls: Word64, hi: Word64)

  /** The answer that a class header gives. */
  function Decode(header: Header32, base: Word64): Answer {
    if !header.IsDuplicate() then Answer(1, Target(base, header.clsOffset), Target(base, header.hiOffset))
    else Answer(header.DuplicateCount(), 0, 0)
  }

  /** getClassHeaderAndIndex */
  function GetClassAndHeader(c: Context, headers: seq<ClassHeader>, key: string): Answer
    requires Readable(c, headers, key)
  {
    var h := GetIndex(c.table, c.machine, c.base, c.memory, key);
    if h == INDEX_NOT_FOUND then Answer(0, 0, 0) else Decode(headers[h], c.base)
  }

  /** The key has a slot, and the header there holds 32-bit offsets. */
  ghost predicate Readable(c: Context, headers: seq<ClassHeader>, key: string) {
    && Ready(c) && |headers| == c.table.hash.capacity && SlotMap(c)(key) < |headers|
    && Fits(headers[SlotMap(c)(key)].clsOffset) && Fits(headers[SlotMap(c)(key)].hiOffset)
  }

  /** A table that write has finished, within the 32 bits of its fields. */
  ghost predicate Finished(c: Context, classes: seq<ClassEntry>, headers: seq<ClassHeader>, count: nat,
                           duplicates: map<nat, Header32>) {
    EnteredTo(c, classes, |classes|, headers, count, duplicates) && |classes| <= 0x2000_0000 && count < 0x8000_0000
  }

  /** The reader computes a slot of the table for this key: always so in a table
      of two strings or more. */
  ghost predicate HasSlot(c: Context, key: string)
    requires Ready(c)
  {
    c.table.hash.shift < 64 || SlotMap(c)(key) < c.table.hash.capacity
  }

  lemma FinishedReadable(c: Context, classes: seq<ClassEntry>, headers: seq<ClassHeader>, count: nat,
                         duplicates: map<nat, Header32>, key: string)
    requires Finished(c, classes, headers, count, duplicates) && HasSlot(c, key)
    ensures Readable(c, headers, key)
  {
    if c.table.hash.shift < 64 { HashInBounds(c.table.hash, c.machine, key); }
    HeaderFitsAt(SlotMap(c), RangeMap(classes), c.base, classes, headers, count, duplicates, SlotMap(c)(key));
  }

  lemma HeaderFitsAt(slot: string -> nat, range: string -> seq<ClassEntry>, base: Word64, classes: seq<ClassEntry>,
                     headers: seq<ClassHeader>, count: nat, duplicates: map<nat, Header32>, h: nat)
    requires h < |headers| && |classes| <= 0x2000_0000 && count < 0x8000_0000 && range == RangeMap(classes)
    requires AllEntered(slot, range, base, classes, |classes|, headers, count, duplicates)
    requires OnlyEntered(slot, classes, |classes|, headers)
    ensures Fits(headers[h].clsOffset) && Fits(headers[h].hiOffset)
  {
    if headers[h] != ClassHeader(0, 0) {
      var k :| 0 <= k < |classes| && slot(classes[k].name) == h;
      RangeHas(classes, k);
    }
  }

  /** The header of a name whose classes are d. */
  ghost predicate NameState(stored: bool, header: ClassHeader, duplicates: map<nat, Header32>, count: nat,
                            base: Word64, d: seq<ClassEntry>) {
    && (d != [] ==> stored && Entered(header, duplicates, count, base, d))
    && (d == [] && stored ==> header == ClassHeader(0, 0))
  }

  lemma NameEntered(c: Context, classes: seq<ClassEntry>, headers: seq<ClassHeader>, count: nat,
                    duplicates: map<nat, Header32>, key: string)
    requires EnteredTo(c, classes, |classes|, headers, count, duplicates) && Readable(c, headers, key)
    ensures NameState(Stored(c.strings, c.base, key), headers[SlotMap(c)(key)], duplicates, count, c.base,
                      Range(classes, key))
  {
    if Range(classes, key) != [] {
      var k := RangeWitness(classes, key);
      assert classes[k].name == key;
    } else if Stored(c.strings, c.base, key) && headers[SlotMap(c)(key)] != ClassHeader(0, 0) {
      var k :| 0 <= k < |classes| && SlotMap(c)(classes[k].name) == SlotMap(c)(key);
      SlotsApart(c.table, c.machine, c.base, c.memory, c.strings, classes[k].name, key);
      RangeHas(classes, k);
    }
  }

  lemma {:induction false} RangeWitness(classes: seq<ClassEntry>, name: string) returns (k: nat)
    requires Range(classes, name) != []
    ensures k < |classes| && classes[k].name == name
  {
    if classes[0].name == name { k := 0; } else { k := RangeWitness(classes[1..], name); k := k + 1; }
  }

  /** What a lookup must answer for a name whose classes are d: their number,
      and the class itself when there is one.  A name with one class is
      answered right when the class lies at an even distance from the table, and
      otherwise as a duplicated name; a name of the string table that has no
      class is answered as if the table itself were its class. */
  ghost predicate Answers(a: Answer, stored: bool, base: Word64, d: seq<ClassEntry>) {
    && (!stored ==> d == [] && a == Answer(0, 0, 0))
    && (|d| == 1 ==> a == if Offset(d[0].cls, base) % 2 == 0 then Answer(1, d[0].cls, d[0].hi)
                          else Answer(Offset(d[0].cls, base) / 2 % 0x1_0000_0000, 0, 0))
    && (|d| > 1 ==> a == Answer(|d|, 0, 0))
    && (d == [] && stored ==> a == Answer(1, base, base))
  }

  lemma DecodeExact(header: Header32, duplicates: map<nat, Header32>, count: nat, base: Word64, d: seq<ClassEntry>)
    requires NameState(true, header, duplicates, count, base, d)
    ensures Answers(Decode(header, base), true, base, d)
  {
  }

  lemma LookupSlot(c: Context, headers: seq<ClassHeader>, key: string)
    requires Readable(c, headers, key)
    ensures GetClassAndHeader(c, headers, key)
            == if Stored(c.strings, c.base, key) then Decode(headers[SlotMap(c)(key)], c.base) else Answer(0, 0, 0)
  {
    GetIndexExact(c.table, c.machine, c.base, c.memory, c.strings, key);
  }

  /** Every lookup in a finished table answers for the classes of its name. */
  lemma LookupExact(c: Context, classes: seq<ClassEntry>, headers: seq<ClassHeader>, count: nat,
                    duplicates: map<nat, Header32>, key: string)
    requires Finished(c, classes, headers, count, duplicates) && HasSlot(c, key)
    ensures Readable(c, headers, key)
    ensures Answers(GetClassAndHeader(c, headers, key), Stored(c.strings, c.base, key), c.base, Range(classes, key))
  {
    FinishedReadable(c, classes, headers, count, duplicates, key);
    NameEntered(c, classes, headers, count, duplicates, key);
    LookupSlot(c, headers, key);
    if Stored(c.strings, c.base, key) {
      DecodeExact(headers[SlotMap(c)(key)], duplicates, count, c.base, Range(classes, key));
    }
  }

  // ---------------------------------------------------- getClassesAndHeaders

  /** The pairs read from a list of headers. */
  ghost predicate ReadFrom(found: seq<(Word64, Word64)>, inside: bool, base: Word64, duplicates: map<nat, Header32>,
                           index: nat, count: nat) {
    && (inside <==> forall q: nat :: index <= q < index + count ==> q in duplicates)
    && (inside ==> |found| == count && forall i :: 0 <= i < count ==>
          index + i in duplicates
          && found[i] == (Target(base, duplicates[index + i].clsOffset), Target(base, duplicates[index + i].hiOffset)))
  }

  ghost predicate Pairs(found: seq<(Word64, Word64)>, d: seq<ClassEntry>) {
    |found| == |d| && forall q :: 0 <= q < |d| ==> found[q] == (d[q].cls, d[q].hi)
  }

  /** What must be read for a name whose classes are d: exactly those, with the
      exceptions that Answers has.  Of a class on its own at an odd distance, a
      list is read where its header offset points; inside says whether there is
      one. */
  ghost predicate ReadsAll(found: seq<(Word64, Word64)>, inside: bool, stored: bool, base: Word64,
                           duplicates: map<nat, Header32>, d: seq<ClassEntry>) {
    && (!stored ==> inside && found == [])
    && (d == [] && stored ==> inside && found == [(base, base)])
    && ((|d| == 1 && Offset(d[0].cls, base) % 2 == 0) || |d| > 1 ==> inside && Pairs(found, d))
    && (|d| == 1 && Offset(d[0].cls, base) % 2 == 1 ==>
          ReadFrom(found, inside, base, duplicates, Offset(d[0].hi, base) % 0x1_0000_0000,
                   Offset(d[0].cls, base) / 2 % 0x1_0000_0000))
  }

  /** getClassesAndHeaders: all the classes of a name with their headers. */
  method GetClassesAndHeaders(c: Context, headers: seq<ClassHeader>, duplicates: map<nat, Header32>, key: string,
                              ghost classes: seq<ClassEntry>, ghost count: nat)
    returns (found: seq<(Word64, Word64)>, inside: bool)
    requires Finished(c, classes, headers, count, duplicates) && HasSlot(c, key)
    ensures ReadsAll(found, inside, Stored(c.strings, c.base, key), c.base, duplicates, Range(classes, key))
  {
    FinishedReadable(c, classes, headers, count, duplicates, key);
    NameEntered(c, classes, headers, count, duplicates, key);
    RangeShort(classes, key);
    var stored, header := FindHeader(c, headers, key);
    if !stored { return [], true; }
    found, inside := ReadHeader(header, duplicates, count, c.base, Range(classes, key));
  }

  /** getIndex, then the header of that slot. */
  method FindHeader(c: Context, headers: seq<ClassHeader>, key: string) returns (stored: bool, header: Header32)
    requires Readable(c, headers, key)
    ensures stored <==> Stored(c.strings, c.base, key)
    ensures stored ==> header == headers[SlotMap(c)(key)]
  {
    GetIndexExact(c.table, c.machine, c.base, c.memory, c.strings, key);
    var h := GetIndex(c.table, c.machine, c.base, c.memory, key);
    if h == INDEX_NOT_FOUND { return false, ClassHeader(0, 0); }
    return true, headers[h];
  }

  method ReadHeader(header: Header32, duplicates: map<nat, Header32>, ghost count: nat, base: Word64,
                    ghost d: seq<ClassEntry>)
    returns (found: seq<(Word64, Word64)>, inside: bool)
    requires NameState(true, header, duplicates, count, base, d) && |d| <= 0x2000_0000 && count < 0x8000_0000
    ensures ReadsAll(found, inside, true, base, duplicates, d)
  {
    if !header.IsDuplicate() {
      if |d| == 1 {
        OffsetRoundTrip(d[0].cls, base);
        OffsetRoundTrip(d[0].hi, base);
      }
      return [(Target(base, header.clsOffset), Target(base, header.hiOffset))], true;
    }
    found, inside := ReadList(base, duplicates, header.DuplicateIndex(), header.DuplicateCount());
    if |d| > 1 { ListRead(found, inside, base, duplicates, header.hiOffset, d); }
  }

  lemma ListRead(found: seq<(Word64, Word64)>, inside: bool, base: Word64, duplicates: map<nat, Header32>, index: nat,
                 d: seq<ClassEntry>)
    requires Listed(duplicates, base, d, index, |d|) && ReadFrom(found, inside, base, duplicates, index, |d|)
    ensures inside && Pairs(found, d)
  {
    forall q: nat | index <= q < index + |d| ensures q in duplicates {
      assert index + |d[..q - index]| == q;
      var e := d[q - index];
    }
    forall q | 0 <= q < |d| ensures found[q] == (d[q].cls, d[q].hi) {
      var e := d[q];
      OffsetRoundTrip(e.cls, base);
      OffsetRoundTrip(e.hi, base);
    }
  }

  method ReadList(base: Word64, duplicates: map<nat, Header32>, index: nat, count: nat)
    returns (found: seq<(Word64, Word64)>, inside: bool)
    ensures ReadFrom(found, inside, base, duplicates, index, count)
  {
    found := [];
    for i := 0 to count
      invariant |found| == i && forall k: nat :: index <= k < index + i ==> k in duplicates
      invariant forall k :: 0 <= k < i ==>
                  index + k in duplicates
                  && found[k] == (Target(base, duplicates[index + k].clsOffset),
                                  Target(base, duplicates[index + k].hiOffset))
    {
      if index + i !in duplicates { return found, false; }
      found := found + [(Target(base, duplicates[index + i].clsOffset), Target(base, duplicates[index + i].hiOffset))];
    }
    inside := true;
  }

  // -------------------------------------------------------- write, then read

  /** A table written from two strings or more answers every key at all with
      its classes; one written from a single string answers the keys whose slot
      is inside it. */
  method WriteThenRead(o: ClsOpt, base: Word64, remaining: nat, strings: seq<Entry>, classes: seq<ClassEntry>,
                       steps: nat, key: string)
    returns (r: ClassOutcome, slot: bool, a: Answer, found: seq<(Word64, Word64)>, inside: bool)
    requires DistinctNames(strings) && |strings| <= 0x4000_0000 && Loaded(o.memory, strings)
    requires o.names.machine == o.machine && |classes| <= 0x2000_0000 && o.duplicateCount + |classes| < 0x8000_0000
    modifies o, o.names
    ensures slot ==> r.Done?
    ensures r.Done? && |strings| >= 2 ==> slot
    ensures r.Done? && |strings| == 1 ==>
              var hash := o.names.table.hash;
              Shaped(hash) && (slot <==> HashIndex(hash, o.machine, key) < hash.capacity)
    ensures slot ==> Answers(a, Stored(strings, base, key), base, Range(classes, key))
    ensures slot ==> ReadsAll(found, inside, Stored(strings, base, key), base, o.duplicates, Range(classes, key))
  {
    slot, a, found, inside := false, Answer(0, 0, 0), [], true;
    r := o.Write(base, remaining, strings, classes, steps);
    if !r.Done? || strings == [] { return; }
    var c := Context(o.names.table, o.machine, base, o.memory, strings);
    if c.table.hash.shift < 64 { HashInBounds(c.table.hash, c.machine, key); }
    slot := HashIndex(c.table.hash, c.machine, key) < c.table.hash.capacity;
    if !slot { return; }
    LookupExact(c, classes, o.classOffsets, o.duplicateCount, o.duplicates, key);
    a := GetClassAndHeader(c, o.classOffsets, key);
    found, inside := GetClassesAndHeaders(c, o.classOffsets, o.duplicates, key, classes, o.duplicateCount);
  }
}
