/** DenseMap: an open-addressed hash table with triangular probing, tombstones
    and purgeable values.

    `Model` is the map a client believes in: what an ordinary map would hold
    after the same calls.  The table may have lost some of its purgeable
    bindings; Valid() says that it has lost nothing else. */
module DenseMaps {
  import opened Bits
  import opened Counting
  import opened PowerOfTwo
  import opened DenseTable
  import opened Probing

  const MIN_BUCKETS: nat := 4
  const MIN_COMPACT: nat := 1024

  /** Table sizes and counts up to here keep the unsigned products of the
      source within 32 bits. */
  const MAX_BUCKETS: nat := 0x1000_0000

  function Max(a: nat, b: nat): nat { if a < b then b else a }

  /** Buckets allocated by grow(atLeast); the decrement wraps at zero. */
  function GrowSize(atLeast: nat): nat
    requires atLeast < WORD
  {
    Max(MIN_BUCKETS, NextPowerOf2(if atLeast == 0 then WORD - 1 else atLeast - 1))
  }

  /** getMinBucketToReserveForEntries */
  function MinBucketsFor(entries: nat): nat
    requires entries <= MAX_BUCKETS
  {
    if entries == 0 then 0 else NextPowerOf2(entries * 4 / 3 + 1)
  }

  /** Buckets wanted by shrink_and_clear: 1 << (Log2_32_Ceil(entries) + 1). */
  function ShrinkTarget(entries: nat): nat {
    if entries == 0 then 0 else Max(MIN_BUCKETS, Pow2(BitLength(entries - 1) + 1))
  }

  /** The insertion of one more entry into a table of n buckets calls for a
      rehash: it would be three quarters full, or have few empty buckets left. */
  predicate Crowded(n: nat, entries: nat, tombstones: nat) {
    4 * (entries + 1) >= 3 * n || n - (entries + 1 + tombstones) <= n / 8
  }

  /** The buckets of a table that has made room for one more entry. */
  function Roomy(n: nat, entries: nat): nat {
    if 4 * (entries + 1) < 3 * n then n else if n == 0 then 4 else 2 * n
  }

  /** Fewer than one bucket in sixteen is in use. */
  predicate Sparse(n: nat, entries: nat) { n >= 16 * (entries + 1) && n > MIN_COMPACT }

  /** The buckets that shrink_and_clear leaves.  Note that init takes its
      argument for a number of entries, so that a new table is larger than the
      target. */
  function Shrunk(n: nat, entries: nat): nat
    requires 4 * entries <= n <= MAX_BUCKETS
  {
    ShrinkTargetBound(entries);
    if ShrinkTarget(entries) == n then n else MinBucketsFor(ShrinkTarget(entries))
  }

  lemma GrowSizePow2(atLeast: nat)
    requires atLeast <= 4 * MAX_BUCKETS
    ensures IsPow2(GrowSize(atLeast)) && GrowSize(atLeast) >= 4 && GrowSize(atLeast) >= atLeast
    ensures atLeast > 0 ==> GrowSize(atLeast) <= Max(4, 2 * atLeast)
    ensures atLeast == 0 ==> GrowSize(atLeast) == 4
  {
    NextPowerOf2Least(if atLeast == 0 then WORD - 1 else atLeast - 1);
    IsPow2Intro(2);
    assert Pow2(2) == 4;
  }

  /** The reserved table really has room for that many entries. */
  lemma MinBucketsEnough(entries: nat)
    requires entries <= MAX_BUCKETS
    ensures entries > 0 ==> IsPow2(MinBucketsFor(entries)) && MinBucketsFor(entries) >= 4
    ensures entries > 0 ==> 4 * entries < 3 * MinBucketsFor(entries) <= 3 * (4 * MAX_BUCKETS)
  {
    if entries > 0 {
      NextPowerOf2Least(entries * 4 / 3 + 1);
      var p := MinBucketsFor(entries);
      SmallPow2(p);
    }
  }

  lemma SmallPow2(p: nat)
    requires IsPow2(p) && p > 2
    ensures p >= 4
  {
  }

  lemma EmptyTable<K(!new), V>(hash: K -> nat, t: seq<Slot<K, V>>)
    requires forall b :: 0 <= b < |t| ==> t[b].Empty?
    requires |t| > 0 ==> IsPow2(|t|) && |t| >= 4
    ensures Good(hash, t) && Sized(t) && Lives(t) == 0 && Tombs(t) == 0
    ensures Contents(t) == map[]
  {
    AllEmptyCounts(t);
    ContentsIs(t, map[]);
  }

  class DenseMap<K(==, !new), V(==)> {
    const hash: K -> nat
    const purgeable: V -> bool
    const dflt: V
    var buckets: array<Slot<K, V>>
    var numEntries: nat
    var numTombstones: nat
    ghost var Model: map<K, V>

    /** The table, apart from what the client believes. */
    ghost predicate TableOk()
      reads this`buckets, this`numEntries, this`numTombstones, buckets
    {
      && Good(hash, buckets[..])
      && Sized(buckets[..])
      && numEntries == Lives(buckets[..])
      && numTombstones == Tombs(buckets[..])
    }

    ghost predicate Valid()
      reads this, buckets
    {
      TableOk() && Refines(purgeable, View(), Model)
    }

    ghost function View(): map<K, V>
      requires Unique(buckets[..])
      reads this`buckets, buckets
    {
      Contents(buckets[..])
    }

    /** DenseMap(InitialReserve) */
    constructor (hash: K -> nat, purgeable: V -> bool, dflt: V, initialReserve: nat)
      requires initialReserve <= MAX_BUCKETS
      ensures Valid() && fresh(buckets) && View() == map[] && Model == map[]
      ensures this.hash == hash && this.purgeable == purgeable && this.dflt == dflt
      ensures buckets.Length == MinBucketsFor(initialReserve)
    {
      this.hash := hash;
      this.purgeable := purgeable;
      this.dflt := dflt;
      var n := MinBucketsFor(initialReserve);
      buckets := new Slot<K, V>[n](_ => Empty);
      numEntries := 0;
      numTombstones := 0;
      Model := map[];
      new;
      MinBucketsEnough(initialReserve);
      EmptyTable(hash, buckets[..]);
    }

    // -------------------------------------------------------------- lookup

    /** LookupBucketFor: the key's bucket, or the bucket to put it in.  The
        "hash table corrupted" exit is never taken. */
    method LookupBucketFor(k: K) returns (found: bool, b: int)
      requires Good(hash, buckets[..])
      requires buckets.Length > 0 ==> IsPow2(buckets.Length) && Empties(buckets[..]) > 0
      ensures found <==> HasKey(buckets[..], k)
      ensures buckets.Length == 0 ==> b == -1
      ensures found ==> 0 <= b < buckets.Length && buckets[b].Live? && buckets[b].key == k
      ensures !found && buckets.Length > 0 ==> b >= 0 && Spot(hash, purgeable, buckets[..], k, b)
    {
      var n := buckets.Length;
      if n == 0 { return false, -1; }
      ghost var t := buckets[..];
      ghost var e := SomeEmpty(t);
      ghost var last := ProbesCover(hash(k), n, e);
      var foundTombstone := -1;
      var bucketNo := hash(k) % n;
      var probeAmt := 1;
      while true
        invariant 1 <= probeAmt <= last + 1 && bucketNo == Probe(hash(k), probeAmt - 1, n)
        invariant NoGap(t, hash(k), probeAmt - 1)
        invariant forall j: nat :: j < probeAmt - 1 ==> var s := t[Probe(hash(k), j, n)]; !(s.Live? && s.key == k)
        invariant foundTombstone >= 0 ==> Spot(hash, purgeable, t, k, foundTombstone)
        decreases last + 1 - probeAmt
      {
        assert t[bucketNo] == buckets[bucketNo];
        if buckets[bucketNo].Live? && buckets[bucketNo].key == k {
          return true, bucketNo;
        }
        if buckets[bucketNo].Empty? {
          AbsentAfterGap(hash, t, k, probeAmt - 1);
          return false, if foundTombstone >= 0 then foundTombstone else bucketNo;
        }
        assert probeAmt - 1 != last;
        if buckets[bucketNo].Tombstone? && foundTombstone < 0 {
          foundTombstone := bucketNo;
        }
        if buckets[bucketNo].Live? && purgeable(buckets[bucketNo].val) && foundTombstone < 0 {
          foundTombstone := bucketNo;
        }
        if probeAmt > n {
          assert false;
        }
        bucketNo := NextBucket(hash(k), bucketNo, probeAmt, n);
        probeAmt := probeAmt + 1;
      }
    }

    /** The quadratic probing step. */
    method NextBucket(ghost h: nat, bucketNo: nat, probeAmt: nat, n: nat) returns (b: nat)
      requires n > 0 && probeAmt > 0 && bucketNo == Probe(h, probeAmt - 1, n)
      ensures b == Probe(h, probeAmt, n)
    {
      b := (bucketNo + probeAmt) % n;
    }

    // -------------------------------------------------------------- rehash

    /** initEmpty */
    method InitEmpty()
      modifies this`numEntries, this`numTombstones, buckets
      ensures numEntries == 0 && numTombstones == 0
      ensures forall b :: 0 <= b < buckets.Length ==> buckets[b].Empty?
    {
      numEntries := 0;
      numTombstones := 0;
      forall b | 0 <= b < buckets.Length {
        buckets[b] := Empty;
      }
    }

    /** moveFromOldBuckets: refill the new buckets from the old ones, leaving
        out tombstones and purgeable values. */
    method MoveFromOldBuckets(from: array<Slot<K, V>>)
      requires from != buckets && Unique(from[..])
      requires IsPow2(buckets.Length) && buckets.Length >= 4 && Lives(from[..]) < buckets.Length
      modifies this`numEntries, this`numTombstones, buckets
      ensures Good(hash, buckets[..])
      ensures View() == Kept(purgeable, Contents(from[..]))
      ensures numEntries == Lives(buckets[..]) <= Lives(from[..])
      ensures numTombstones == Tombs(buckets[..]) == 0
    {
      InitEmpty();
      EmptyTable(hash, buckets[..]);
      ghost var t := from[..];
      var i := 0;
      while i < from.Length
        invariant 0 <= i <= from.Length && Unique(t[..i])
        invariant Good(hash, buckets[..])
        invariant View() == Kept(purgeable, Contents(t[..i]))
        invariant numEntries == Lives(buckets[..]) <= Lives(t[..i])
        invariant numTombstones == Tombs(buckets[..]) == 0
      {
        KeptExtends(purgeable, t, i);
        LivesStep(t, i);
        if from[i].Live? && !purgeable(from[i].val) {
          MoveOne(from[i].key, from[i].val, Lives(t));
        }
        i := i + 1;
      }
      assert t[..i] == t;
    }

    /** One entry of the old table goes into the new one. */
    method MoveOne(k: K, v: V, ghost bound: nat)
      requires Good(hash, buckets[..]) && IsPow2(buckets.Length)
      requires numEntries == Lives(buckets[..]) < bound < buckets.Length
      requires numTombstones == Tombs(buckets[..]) == 0
      requires k !in View() && forall x :: x in View() ==> !purgeable(View()[x])
      modifies this`numEntries, buckets
      ensures Good(hash, buckets[..])
      ensures View() == old(View())[k := v]
      ensures numEntries == Lives(buckets[..]) == old(numEntries) + 1
      ensures Tombs(buckets[..]) == 0
    {
      ghost var t := buckets[..];
      CountsAddUp(t);
      var found, dest := LookupBucketFor(k);
      PutFresh(hash, purgeable, t, dest, k, v);
      buckets[dest] := Live(k, v);
      numEntries := numEntries + 1;
      assert buckets[..] == t[dest := Live(k, v)];
    }

    /** grow */
    method Grow(atLeast: nat)
      requires TableOk() && atLeast <= 4 * MAX_BUCKETS && 4 * numEntries < 3 * GrowSize(atLeast)
      modifies this`buckets, this`numEntries, this`numTombstones
      ensures TableOk() && fresh(buckets) && buckets.Length == GrowSize(atLeast)
      ensures View() == Kept(purgeable, old(View()))
      ensures numTombstones == 0 && numEntries <= old(numEntries)
    {
      var from := buckets;
      GrowSizePow2(atLeast);
      buckets := new Slot<K, V>[GrowSize(atLeast)](_ => Empty);
      if from.Length == 0 {
        InitEmpty();
        EmptyTable(hash, buckets[..]);
        assert Contents(from[..]) == map[] by { ContentsIs(from[..], map[]); }
        return;
      }
      MoveFromOldBuckets(from);
      LightIsSized(buckets[..]);
    }

    /** shrink_and_clear */
    method ShrinkAndClear()
      requires TableOk() && 4 * numEntries <= buckets.Length <= MAX_BUCKETS
      modifies this`buckets, this`numEntries, this`numTombstones, buckets
      ensures TableOk() && View() == map[] && (buckets == old(buckets) || fresh(buckets))
      ensures buckets.Length == Shrunk(old(buckets.Length), old(numEntries)) && numEntries == 0 && numTombstones == 0
    {
      ShrinkTargetBound(numEntries);
      var newNumBuckets := ShrinkTarget(numEntries);
      if newNumBuckets == buckets.Length {
        InitEmpty();
      } else {
        MinBucketsEnough(newNumBuckets);
        buckets := new Slot<K, V>[MinBucketsFor(newNumBuckets)](_ => Empty);
        numEntries := 0;
        numTombstones := 0;
      }
      EmptyTable(hash, buckets[..]);
    }

    // -------------------------------------------------------------- insert

    /** The growth policy of InsertIntoBucketImpl: afterwards one more entry
        fits, and b is where it goes. */
    method EnsureRoom(k: K, b0: int) returns (b: int)
      requires Valid() && buckets.Length <= MAX_BUCKETS && !HasKey(buckets[..], k)
      requires buckets.Length > 0 ==> b0 >= 0 && Spot(hash, purgeable, buckets[..], k, b0)
      modifies this`buckets, this`numEntries, this`numTombstones
      ensures Valid() && (buckets == old(buckets) || fresh(buckets))
      ensures if Crowded(old(buckets.Length), old(numEntries), old(numTombstones))
              then fresh(buckets) && View() == Kept(purgeable, old(View())) && numTombstones == 0
              else buckets == old(buckets) && View() == old(View())
      ensures !HasKey(buckets[..], k) && b >= 0 && Spot(hash, purgeable, buckets[..], k, b)
      ensures buckets.Length == Roomy(old(buckets.Length), old(numEntries))
      ensures 4 * (numEntries + 1) < 3 * buckets.Length
      ensures buckets.Length - (numEntries + 1 + numTombstones) > buckets.Length / 8
    {
      b := b0;
      var newNumEntries := numEntries + 1;
      var n := buckets.Length;
      if newNumEntries * 4 >= n * 3 {
        if n == 0 { GrowSizePow2(0); } else { DoublePow2(n); GrowExact(n * 2); }
        Grow(n * 2);
        RefinesKept(purgeable, old(View()), Model);
        var _, b1 := LookupBucketFor(k);
        b := b1;
      } else if n - (newNumEntries + numTombstones) <= n / 8 {
        GrowExact(n);
        Grow(n);
        RefinesKept(purgeable, old(View()), Model);
        var _, b1 := LookupBucketFor(k);
        b := b1;
      }
    }

    /** The table is a new one exactly when the old one was too crowded for one
        more entry, and it has doubled when it was too full. */
    ghost predicate Rehashed(from: array<Slot<K, V>>, n: nat, entries: nat, tombstones: nat)
      reads this`buckets
    {
      (buckets != from <==> Crowded(n, entries, tombstones)) && buckets.Length == Roomy(n, entries)
    }

    /** InsertIntoBucket: write an absent key.  Other bindings that vanish on
        the way were purgeable. */
    method InsertIntoBucket(k: K, v: V, b0: int) returns (b: int)
      requires Valid() && buckets.Length <= MAX_BUCKETS && !HasKey(buckets[..], k)
      requires buckets.Length > 0 ==> b0 >= 0 && Spot(hash, purgeable, buckets[..], k, b0)
      modifies this, buckets
      ensures Valid() && (buckets == old(buckets) || fresh(buckets))
      ensures Model == old(Model)[k := v]
      ensures k in View() && View()[k] == v && OnlyPurged(purgeable, old(View()), View(), k)
      ensures 0 <= b < buckets.Length && buckets[b] == Live(k, v)
      ensures Rehashed(old(buckets), old(buckets.Length), old(numEntries), old(numTombstones))
    {
      ghost var view := View();
      b := EnsureRoom(k, b0);
      ghost var roomy := View();
      WriteEntry(k, v, b);
      assert OnlyPurged(purgeable, view, View(), k);
    }

    /** The tail of InsertIntoBucketImpl and InsertIntoBucket: account for the
        bucket about to be overwritten, then fill it. */
    method WriteEntry(k: K, v: V, b: int)
      requires Valid() && !HasKey(buckets[..], k)
      requires b >= 0 && Spot(hash, purgeable, buckets[..], k, b)
      requires 4 * (numEntries + 1) < 3 * buckets.Length
      requires buckets.Length - (numEntries + 1 + numTombstones) > buckets.Length / 8
      modifies this`Model, this`numEntries, this`numTombstones, buckets
      ensures Valid() && Model == old(Model)[k := v] && buckets[b] == Live(k, v)
      ensures k in View() && View()[k] == v && OnlyPurged(purgeable, old(View()), View(), k)
    {
      ghost var t := buckets[..];
      PutEntry(hash, purgeable, t, b, k, v, Model);
      CountsUpdate(t, b, Live(k, v));
      Tally(b);
      buckets[b] := Live(k, v);
      assert buckets[..] == t[b := Live(k, v)];
      Model := Model[k := v];
    }

    /** The counters of a write into bucket b: a purgeable value makes room
        without a new entry. */
    method Tally(b: int)
      requires 0 <= b < buckets.Length && (buckets[b].Tombstone? ==> numTombstones > 0)
      modifies this`numEntries, this`numTombstones
      ensures numEntries == old(numEntries) + 1 - LiveOf(buckets[b])
              && numTombstones == old(numTombstones) - TombOf(buckets[b])
    {
      if buckets[b].Empty? {
        numEntries := numEntries + 1;
      } else if buckets[b].Tombstone? {
        numEntries := numEntries + 1;
        numTombstones := numTombstones - 1;
      }
    }

    /** insert / try_emplace: adds the binding unless the key is present. */
    method TryEmplace(k: K, v: V) returns (inserted: bool)
      requires Valid() && buckets.Length <= MAX_BUCKETS
      modifies this, buckets
      ensures Valid() && (buckets == old(buckets) || fresh(buckets))
      ensures inserted <==> k !in old(View())
      ensures k in old(Model) && !purgeable(old(Model)[k]) ==> !inserted
      ensures k !in old(Model) ==> inserted
      ensures Model == if inserted then old(Model)[k := v] else old(Model)
      ensures inserted ==> k in View() && View()[k] == v && OnlyPurged(purgeable, old(View()), View(), k)
      ensures !inserted ==> View() == old(View()) && buckets == old(buckets)
      ensures inserted ==> Rehashed(old(buckets), old(buckets.Length), old(numEntries), old(numTombstones))
    {
      var found, b := LookupBucketFor(k);
      if found { return false; }
      b := InsertIntoBucket(k, v, b);
      inserted := true;
    }

    /** FindAndConstruct: the key's bucket, made with the default value if the
        key is absent. */
    method FindAndConstruct(k: K) returns (b: int)
      requires Valid() && buckets.Length <= MAX_BUCKETS
      modifies this, buckets
      ensures Valid() && (buckets == old(buckets) || fresh(buckets))
      ensures 0 <= b < buckets.Length && buckets[b].Live? && buckets[b].key == k
      ensures Model == if k in old(View()) then old(Model) else old(Model)[k := dflt]
      ensures OnlyPurged(purgeable, old(View()), View(), k)
      ensures if k in old(View()) then buckets == old(buckets)
              else Rehashed(old(buckets), old(buckets.Length), old(numEntries), old(numTombstones))
    {
      var found, b0 := LookupBucketFor(k);
      if found { return b0; }
      b := InsertIntoBucket(k, dflt, b0);
    }

    /** operator[](k) = v: a store through the reference it returns. */
    method Assign(k: K, v: V)
      requires Valid() && buckets.Length <= MAX_BUCKETS
      modifies this, buckets
      ensures Valid() && (buckets == old(buckets) || fresh(buckets))
      ensures Model == old(Model)[k := v]
      ensures k in View() && View()[k] == v && OnlyPurged(purgeable, old(View()), View(), k)
      ensures if k in old(View()) then buckets == old(buckets)
              else Rehashed(old(buckets), old(buckets.Length), old(numEntries), old(numTombstones))
    {
      ghost var before, model := View(), Model;
      var b := FindAndConstruct(k);
      StoreKey(b, k, v, before, model);
    }

    /** The store of an assignment that began with this view and this model. */
    method StoreKey(b: int, k: K, v: V, ghost before: map<K, V>, ghost model: map<K, V>)
      requires Valid() && 0 <= b < buckets.Length && buckets[b].Live? && buckets[b].key == k
      requires OnlyPurged(purgeable, before, View(), k) && (Model == model || Model == model[k := dflt])
      modifies this`Model, buckets
      ensures Valid() && Model == model[k := v]
      ensures k in View() && View()[k] == v && OnlyPurged(purgeable, before, View(), k)
    {
      StoredTwice(model, Model, k, dflt, v);
      OnlyPurgedTwice(purgeable, before, View(), k, v);
      StoreValue(b, v);
    }

    /** A store into the value of a live bucket. */
    method StoreValue(b: int, v: V)
      requires Valid() && 0 <= b < buckets.Length && buckets[b].Live?
      modifies this`Model, buckets
      ensures Valid() && buckets[b] == Live(old(buckets[b].key), v)
      ensures View() == old(View())[old(buckets[b].key) := v]
      ensures Model == old(Model)[old(buckets[b].key) := v]
    {
      ghost var t := buckets[..];
      var k := buckets[b].key;
      StoreEntry(hash, purgeable, t, b, v, Model);
      buckets[b] := Live(k, v);
      assert buckets[..] == t[b := Live(k, v)];
      Model := Model[k := v];
    }

    /** lookup: the stored value, or the default. */
    method Lookup(k: K) returns (v: V)
      requires Valid()
      ensures v == if k in View() then View()[k] else dflt
      ensures k in Model && !purgeable(Model[k]) ==> v == Model[k]
      ensures k !in Model ==> v == dflt
    {
      var found, b := LookupBucketFor(k);
      if found { return buckets[b].val; }
      return dflt;
    }

    // --------------------------------------------------------------- erase

    /** An empty table is gone, a very sparse one has been rehashed into one with
        at most four buckets an entry, and any other is the same as before. */
    ghost predicate Compacted(from: array<Slot<K, V>>, n: nat, entries: nat)
      reads this`buckets
    {
      if entries == 0 then buckets.Length == 0
      else if Sparse(n, entries) then buckets != from && 2 * entries <= buckets.Length <= 4 * entries + 4
      else buckets == from
    }

    /** compact: drop an empty table, rehash a very sparse one. */
    method Compact()
      requires Valid() && buckets.Length <= MAX_BUCKETS
      modifies this`buckets, this`numEntries, this`numTombstones, buckets
      ensures Valid() && (buckets == old(buckets) || fresh(buckets))
      ensures Compacted(old(buckets), old(buckets.Length), old(numEntries))
      ensures View() == if buckets == old(buckets) then old(View()) else Kept(purgeable, old(View()))
    {
      ContentsSize(buckets[..]);
      if numEntries == 0 {
        assert View() == map[];
        ShrinkAndClear();
      } else if buckets.Length / 16 > numEntries && buckets.Length > MIN_COMPACT {
        GrowSizePow2(numEntries * 2);
        Grow(numEntries * 2);
        RefinesKept(purgeable, old(View()), Model);
      }
    }

    /** erase */
    method Erase(k: K) returns (erased: bool)
      requires Valid() && buckets.Length <= MAX_BUCKETS
      modifies this, buckets
      ensures Valid() && (buckets == old(buckets) || fresh(buckets))
      ensures erased <==> k in old(View())
      ensures k in old(Model) && !purgeable(old(Model)[k]) ==> erased
      ensures k !in old(Model) ==> !erased
      ensures Model == old(Model) - {k} && k !in View()
      ensures OnlyPurged(purgeable, old(View()), View(), k)
      ensures if erased then old(numEntries) > 0 && Compacted(old(buckets), old(buckets.Length), old(numEntries) - 1)
              else buckets == old(buckets) && View() == old(View())
    {
      var found, b := LookupBucketFor(k);
      ghost var view := View();
      RefinesErase(purgeable, view, Model, k);
      OnlyPurgedErase(purgeable, view, k);
      Model := Model - {k};
      if !found { return false; }
      EraseFound(b);
      erased := true;
    }

    /** Drop a live bucket, and shrink the table if it has become sparse. */
    method EraseFound(b: int)
      requires TableOk() && 0 <= b < buckets.Length <= MAX_BUCKETS && buckets[b].Live?
      requires Refines(purgeable, View() - {buckets[b].key}, Model)
      modifies this`buckets, this`numEntries, this`numTombstones, buckets
      ensures Valid() && (buckets == old(buckets) || fresh(buckets))
      ensures View() == old(View()) - {old(buckets[b].key)}
              || View() == Kept(purgeable, old(View()) - {old(buckets[b].key)})
      ensures old(numEntries) > 0 && Compacted(old(buckets), old(buckets.Length), old(numEntries) - 1)
    {
      KillBucket(b);
      Compact();
    }

    /** A live bucket becomes a tombstone. */
    method KillBucket(b: int)
      requires TableOk() && 0 <= b < buckets.Length && buckets[b].Live?
      modifies this`numEntries, this`numTombstones, buckets
      ensures TableOk() && View() == old(View()) - {old(buckets[b].key)} && numEntries == old(numEntries) - 1
    {
      ghost var t := buckets[..];
      KillGood(hash, t, b);
      CountsUpdate(t, b, Tombstone);
      buckets[b] := Tombstone;
      numEntries := numEntries - 1;
      numTombstones := numTombstones + 1;
      assert buckets[..] == t[b := Tombstone];
    }

    /** clear */
    method Clear()
      requires Valid() && buckets.Length <= MAX_BUCKETS
      modifies this, buckets
      ensures Valid() && (buckets == old(buckets) || fresh(buckets))
      ensures Model == map[] && View() == map[] && numEntries == 0 && numTombstones == 0
      ensures if old(numEntries) * 4 < old(buckets.Length) && old(buckets.Length) > 4
                 && (old(numEntries) > 0 || old(numTombstones) > 0)
              then buckets.Length == Shrunk(old(buckets.Length), old(numEntries))
              else buckets == old(buckets)
    {
      Model := map[];
      if numEntries == 0 && numTombstones == 0 {
        ContentsSize(buckets[..]);
        return;
      }
      if numEntries * 4 < buckets.Length && buckets.Length > MIN_BUCKETS {
        ShrinkAndClear();
        return;
      }
      InitEmpty();
      EmptyTable(hash, buckets[..]);
    }

    /** reserve: afterwards that many entries fit under the load limit. */
    method Reserve(entries: nat)
      requires Valid() && entries <= MAX_BUCKETS
      modifies this`buckets, this`numEntries, this`numTombstones
      ensures Valid() && (buckets == old(buckets) || fresh(buckets))
      ensures if old(buckets.Length) < MinBucketsFor(entries)
              then buckets.Length == MinBucketsFor(entries) && View() == Kept(purgeable, old(View()))
              else buckets == old(buckets) && View() == old(View())
      ensures 4 * entries < 3 * buckets.Length || entries == 0
    {
      var n := MinBucketsFor(entries);
      MinBucketsEnough(entries);
      if n > buckets.Length {
        GrowExact(n);
        Grow(n);
        RefinesKept(purgeable, old(View()), Model);
      }
    }

    // ---------------------------------------------------------- comparison

    /** operator==: true exactly when both tables hold the same bindings. */
    method Equals(other: DenseMap<K, V>) returns (eq: bool)
      requires Valid() && other.Valid()
      ensures eq <==> View() == other.View()
    {
      ContentsSize(buckets[..]);
      ContentsSize(other.buckets[..]);
      if numEntries != other.numEntries { return false; }
      eq := Within(other);
      if eq { SameSizeSubmap(buckets[..], other.View()); }
    }

    /** Whether every live bucket's binding is also in the other map. */
    method Within(other: DenseMap<K, V>) returns (within: bool)
      requires Valid() && other.Valid()
      ensures within <==> forall b :: 0 <= b < |buckets[..]| && buckets[..][b].Live? ==>
                buckets[..][b].key in other.View() && other.View()[buckets[..][b].key] == buckets[..][b].val
      ensures !within ==> View() != other.View()
    {
      ghost var t := buckets[..];
      var i := 0;
      while i < buckets.Length
        invariant 0 <= i <= buckets.Length
        invariant forall b :: 0 <= b < i && t[b].Live? ==>
                    t[b].key in other.View() && other.View()[t[b].key] == t[b].val
      {
        if buckets[i].Live? {
          var same := other.Has(buckets[i].key, buckets[i].val);
          if !same {
            assert View()[t[i].key] == t[i].val;
            return false;
          }
        }
        i := i + 1;
      }
      return true;
    }

    /** find, then a comparison of the values. */
    method Has(k: K, v: V) returns (same: bool)
      requires Valid()
      ensures same <==> k in View() && View()[k] == v
    {
      var found, b := LookupBucketFor(k);
      assert found ==> View()[buckets[b].key] == buckets[b].val;
      same := found && buckets[b].val == v;
    }
  }

  lemma LivesStep<K, V>(t: seq<Slot<K, V>>, i: nat)
    requires i < |t|
    ensures Lives(t[..i + 1]) == Lives(t[..i]) + LiveOf(t[i]) <= Lives(t)
  {
    assert t[..i + 1][..i] == t[..i];
    LivesPrefix(t, i + 1);
  }

  lemma ShrinkTargetBound(entries: nat)
    ensures ShrinkTarget(entries) <= (if entries == 0 then 0 else 4 * entries)
  {
    if entries > 0 { BitLengthTight(entries - 1); }
  }

  /** A power of two is its own table size. */
  lemma GrowExact(p: nat)
    requires IsPow2(p) && 4 <= p <= 4 * MAX_BUCKETS
    ensures GrowSize(p) == p
  {
    var k: nat :| k < p && p == Pow2(k);
    BitLengthOnes(k);
    assert BitLength(p - 1) == k;
    NextPowerOf2Least(p - 1);
  }

  lemma DoublePow2(p: nat)
    requires IsPow2(p)
    ensures IsPow2(2 * p)
  {
    var k: nat :| k < p && p == Pow2(k);
    IsPow2Intro(k + 1);
  }

  lemma RefinesErase<K(!new), V>(purgeable: V -> bool, have: map<K, V>, want: map<K, V>, k: K)
    requires Refines(purgeable, have, want)
    ensures Refines(purgeable, have - {k}, want - {k})
  {
  }

  lemma StoredTwice<K, V>(m: map<K, V>, m': map<K, V>, k: K, u: V, v: V)
    requires m' == m || m' == m[k := u]
    ensures m'[k := v] == m[k := v]
  {
  }

  lemma OnlyPurgedErase<K(!new), V>(purgeable: V -> bool, view: map<K, V>, k: K)
    ensures OnlyPurged(purgeable, view, view - {k}, k) && OnlyPurged(purgeable, view, Kept(purgeable, view - {k}), k)
    ensures k !in Kept(purgeable, view - {k}) && (k !in view ==> view - {k} == view)
  {
  }

  lemma OnlyPurgedTwice<K(!new), V>(purgeable: V -> bool, a: map<K, V>, b: map<K, V>, k: K, v: V)
    requires OnlyPurged(purgeable, a, b, k)
    ensures OnlyPurged(purgeable, a, b[k := v], k)
  {
  }

  /** A map that contains all bindings of a table and is no larger is its map. */
  lemma SameSizeSubmap<K(!new), V>(t: seq<Slot<K, V>>, m: map<K, V>)
    requires Unique(t) && |m| == |Contents(t)|
    requires forall b :: 0 <= b < |t| && t[b].Live? ==> t[b].key in m && m[t[b].key] == t[b].val
    ensures Contents(t) == m
  {
    var c := Contents(t);
    assert c.Keys <= m.Keys;
    assert |c.Keys| == |m.Keys|;
    SubsetSameSize(c.Keys, m.Keys);
    ContentsIs(t, m);
  }
}
