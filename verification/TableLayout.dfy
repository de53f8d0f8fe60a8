/** The bytes of the precomputed tables: which part of a table lies where, and
    how much room a table takes. */
module TableLayout {
  import opened StringHash

  /** What a table consists of.  The tables of a class table follow those of its
      string table. */
  datatype Part =
    | Capacity | Occupied | Shift | Mask | Unused1 | Unused2 | Salt
    | Scramble(i: nat)
    | Tab(i: nat)
    | Check(h: nat)
    | StringOffset(h: nat)
    | Header(h: nat)
    | DuplicateCount
    | Duplicate(q: nat)

  /** Where the arrays begin, one after the other: scramble, tab, checkbytes,
      offsets, classOffsets, duplicateCount, duplicateOffsets. */
  const SCRAMBLE_AT: nat := 32
  const TAB_AT: nat := SCRAMBLE_AT + 4 * 256
  function ChecksAt(t: PerfectHash): nat { TAB_AT + t.mask + 1 }
  function OffsetsAt(t: PerfectHash): nat { ChecksAt(t) + t.capacity }
  function HeadersAt(t: PerfectHash): nat { OffsetsAt(t) + 4 * t.capacity }
  function CountAt(t: PerfectHash): nat { HeadersAt(t) + 8 * t.capacity }
  function DuplicatesAt(t: PerfectHash): nat { CountAt(t) + 4 }

  /** Where each part begins. */
  function Start(t: PerfectHash, p: Part): nat {
    match p
    case Capacity => 0
    case Occupied => 4
    case Shift => 8
    case Mask => 12
    case Unused1 => 16
    case Unused2 => 20
    case Salt => 24
    case Scramble(i) => SCRAMBLE_AT + 4 * i
    case Tab(i) => TAB_AT + i
    case Check(h) => ChecksAt(t) + h
    case StringOffset(h) => OffsetsAt(t) + 4 * h
    case Header(h) => HeadersAt(t) + 8 * h
    case DuplicateCount => CountAt(t)
    case Duplicate(q) => DuplicatesAt(t) + 8 * q
  }

  function Width(p: Part): nat {
    match p
    case Salt => 8
    case Tab(_) => 1
    case Check(_) => 1
    case Header(_) => 8
    case Duplicate(_) => 8
    case _ => 4
  }

  function End(t: PerfectHash, p: Part): nat { Start(t, p) + Width(p) }

  /** The parts of a string table, and of a class table with so many duplicates. */
  predicate StringPart(t: PerfectHash, p: Part) {
    match p
    case Scramble(i) => i < 256
    case Tab(i) => i <= t.mask
    case Check(h) => h < t.capacity
    case StringOffset(h) => h < t.capacity
    case Header(_) => false
    case DuplicateCount => false
    case Duplicate(_) => false
    case _ => true
  }

  predicate ClassPart(t: PerfectHash, count: nat, p: Part) {
    match p
    case Header(h) => h < t.capacity
    case DuplicateCount => true
    case Duplicate(q) => q < count
    case _ => StringPart(t, p)
  }

  /** sizeof(objc_stringhash_t), and the sizes of the two kinds of tables. */
  const HEADER_SIZE: nat := 1056

  function TableSize(t: PerfectHash): nat { HEADER_SIZE + t.mask + 1 + t.capacity + 4 * t.capacity }

  function SizeWith(t: PerfectHash, count: nat): nat { TableSize(t) + 8 * t.capacity + 4 + 8 * count }

  /** Everything that a writer stores lies within so many bytes. */
  ghost predicate StringsInside(t: PerfectHash, remaining: nat) {
    forall p :: StringPart(t, p) ==> End(t, p) <= remaining
  }

  ghost predicate ClassesInside(t: PerfectHash, count: nat, remaining: nat) {
    forall p :: ClassPart(t, count, p) ==> End(t, p) <= remaining
  }

  /** The arrays in their order. */
  function Zone(p: Part): nat {
    match p
    case Scramble(_) => 1
    case Tab(_) => 2
    case Check(_) => 3
    case StringOffset(_) => 4
    case Header(_) => 5
    case DuplicateCount => 6
    case Duplicate(_) => 7
    case _ => 0
  }

  function From(t: PerfectHash, count: nat, z: nat): nat {
    if z == 0 then 0 else if z == 1 then SCRAMBLE_AT else if z == 2 then TAB_AT else if z == 3 then ChecksAt(t)
    else if z == 4 then OffsetsAt(t) else if z == 5 then HeadersAt(t) else if z == 6 then CountAt(t)
    else if z == 7 then DuplicatesAt(t) else DuplicatesAt(t) + 8 * count
  }

  lemma InZone(t: PerfectHash, count: nat, p: Part)
    requires ClassPart(t, count, p)
    ensures From(t, count, Zone(p)) <= Start(t, p) && End(t, p) <= From(t, count, Zone(p) + 1)
  {
  }

  /** No two parts share a byte. */
  lemma PartsApart(t: PerfectHash, count: nat, p: Part, q: Part)
    requires ClassPart(t, count, p) && ClassPart(t, count, q) && p != q
    ensures End(t, p) <= Start(t, q) || End(t, q) <= Start(t, p)
  {
    if Zone(p) == Zone(q) {
      SameZone(t, p, q);
    } else {
      InZone(t, count, p);
      InZone(t, count, q);
    }
  }

  lemma SameZone(t: PerfectHash, p: Part, q: Part)
    requires Zone(p) == Zone(q) && p != q
    ensures End(t, p) <= Start(t, q) || End(t, q) <= Start(t, p)
  {
  }

  /** Every byte of a string table, and of a class table, belongs to a part. */
  lemma StringPartAt(t: PerfectHash, x: nat) returns (p: Part)
    requires x < TableSize(t)
    ensures StringPart(t, p) && Start(t, p) <= x < End(t, p)
  {
    if x < SCRAMBLE_AT {
      p := if x < 4 then Capacity else if x < 8 then Occupied else if x < 12 then Shift
           else if x < 16 then Mask else if x < 20 then Unused1 else if x < 24 then Unused2 else Salt;
    } else if x < TAB_AT {
      p := Scramble((x - SCRAMBLE_AT) / 4);
    } else if x < ChecksAt(t) {
      p := Tab(x - TAB_AT);
    } else if x < OffsetsAt(t) {
      p := Check(x - ChecksAt(t));
    } else {
      p := StringOffset((x - OffsetsAt(t)) / 4);
    }
  }

  lemma ClassPartAt(t: PerfectHash, count: nat, x: nat) returns (p: Part)
    requires x < SizeWith(t, count)
    ensures ClassPart(t, count, p) && Start(t, p) <= x < End(t, p)
  {
    if x < TableSize(t) {
      p := StringPartAt(t, x);
      StringIsClass(t, count, p);
    } else if x < CountAt(t) {
      p := Header((x - HeadersAt(t)) / 8);
    } else if x < DuplicatesAt(t) {
      p := DuplicateCount;
    } else {
      p := Duplicate((x - DuplicatesAt(t)) / 8);
    }
  }

  lemma StringIsClass(t: PerfectHash, count: nat, p: Part)
    requires StringPart(t, p)
    ensures ClassPart(t, count, p) && Zone(p) <= 4
  {
  }

  /** So the sizes are exact: a table fits if and only if all its parts do. */
  lemma StringsFit(t: PerfectHash, remaining: nat)
    ensures StringsInside(t, remaining) <==> TableSize(t) <= remaining
  {
    if TableSize(t) > remaining {
      var p := StringPartAt(t, TableSize(t) - 1);
      assert StringPart(t, p) && End(t, p) > remaining;
    } else {
      forall p | StringPart(t, p) ensures End(t, p) <= remaining {
        StringIsClass(t, 0, p);
        InZone(t, 0, p);
      }
    }
  }

  lemma ClassesFit(t: PerfectHash, count: nat, remaining: nat)
    ensures ClassesInside(t, count, remaining) <==> SizeWith(t, count) <= remaining
  {
    if SizeWith(t, count) > remaining {
      var p := ClassPartAt(t, count, SizeWith(t, count) - 1);
      assert ClassPart(t, count, p) && End(t, p) > remaining;
    } else {
      forall p | ClassPart(t, count, p) ensures End(t, p) <= remaining { InZone(t, count, p); }
    }
  }
}
