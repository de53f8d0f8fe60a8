/** The retain counts of the side table, kept in a DenseMap whose zero values
    may be purged at any rehash.  A count is stored shifted left by two; the two
    low bits are flags that belong to objects without a non-pointer isa, and the
    top bit pins the count.

    Every operation runs under the table's lock, so they are sequential. */
module SideTable {
  import opened DenseMaps
  import RetainRelease

  const WORD: nat := 0x1_0000_0000_0000_0000
  const PINNED: nat := 0x8000_0000_0000_0000

  /** RefcountMapValuePurgeable */
  function IsZero(v: nat): bool { v == 0 }

  /** The word a map stands for; a missing entry is zero. */
  function Stored(m: map<nat, nat>, o: nat): nat { if o in m then m[o] else 0 }

  /** The count the machine of retains and releases sees. */
  function Counter(m: map<nat, nat>, o: nat): nat { Stored(m, o) / 4 }

  ghost predicate Words(m: map<nat, nat>) { forall o :: o in m ==> m[o] < WORD }

  /** after is before with the word of o replaced by v. */
  ghost predicate Changed(before: map<nat, nat>, after: map<nat, nat>, o: nat, v: nat) {
    forall x: nat :: Stored(after, x) == if x == o then v else Stored(before, x)
  }

  /** The words of the table. */
  class Refcounts {
    const refcnts: DenseMap<nat, nat>

    constructor ()
      ensures Valid() && fresh(refcnts) && fresh(refcnts.buckets) && refcnts.Model == map[]
    {
      refcnts := new DenseMap<nat, nat>((o: nat) => o, IsZero, 0, 0);
    }

    ghost predicate Valid()
      reads this, refcnts, refcnts.buckets
    {
      refcnts.Valid() && refcnts.purgeable == IsZero && refcnts.dflt == 0 && Words(refcnts.Model)
    }

    /** find, with a missing entry read as zero: what was purged was zero, so a
        purge is never seen. */
    method GetWord(o: nat) returns (v: nat)
      requires Valid()
      ensures v == Stored(refcnts.Model, o)
    {
      v := refcnts.Lookup(o);
    }

    /** operator[]: the bucket of o, which may be made on the spot. */
    method Storage(o: nat) returns (b: int)
      requires Valid() && refcnts.buckets.Length <= MAX_BUCKETS
      modifies refcnts, refcnts.buckets
      ensures Valid() && (refcnts.buckets == old(refcnts.buckets) || fresh(refcnts.buckets))
      ensures 0 <= b < refcnts.buckets.Length && refcnts.buckets[b].Live? && refcnts.buckets[b].key == o
      ensures refcnts.buckets[b].val == old(Stored(refcnts.Model, o))
      ensures Changed(old(refcnts.Model), refcnts.Model, o, old(Stored(refcnts.Model, o)))
    {
      b := refcnts.FindAndConstruct(o);
      ghost var v := refcnts.View();
      assert v[o] == refcnts.buckets[b].val;
    }

    method Store(b: int, o: nat, v: nat)
      requires Valid() && 0 <= b < refcnts.buckets.Length && refcnts.buckets[b].Live? && refcnts.buckets[b].key == o
               && v < WORD
      modifies refcnts, refcnts.buckets
      ensures Valid() && refcnts.buckets == old(refcnts.buckets) && o in refcnts.View()
      ensures Changed(old(refcnts.Model), refcnts.Model, o, v)
    {
      refcnts.StoreValue(b, v);
    }

    /** sidetable_addExtraRC_nolock */
    method AddExtraRC(o: nat, delta: nat) returns (pinned: bool)
      requires Valid() && refcnts.buckets.Length <= MAX_BUCKETS && 4 * delta < WORD
      modifies refcnts, refcnts.buckets
      ensures Valid() && (refcnts.buckets == old(refcnts.buckets) || fresh(refcnts.buckets))
      ensures var w := old(Stored(refcnts.Model, o));
              && (pinned <==> w >= PINNED || w + 4 * delta >= WORD)
              && Changed(old(refcnts.Model), refcnts.Model, o,
                         if !pinned then w + 4 * delta else if w >= PINNED then w else PINNED + w % 4)
    {
      var b := Storage(o);
      var oldRefcnt := refcnts.buckets[b].val;
      if oldRefcnt >= PINNED { return true; }
      var newRefcnt := oldRefcnt + 4 * delta;
      pinned := newRefcnt >= WORD;
      Store(b, o, if pinned then PINNED + oldRefcnt % 4 else newRefcnt);
    }

    /** sidetable_subExtraRC_nolock: what was borrowed and what is left. */
    method SubExtraRC(o: nat, delta: nat) returns (borrowed: nat, remaining: nat)
      requires Valid() && 4 * delta < WORD
      modifies refcnts, refcnts.buckets
      ensures Valid() && refcnts.buckets == old(refcnts.buckets)
      ensures old(Stored(refcnts.Model, o)) == 0 ==>
                borrowed == 0 && remaining == 0 && Changed(old(refcnts.Model), refcnts.Model, o, 0)
      ensures old(Stored(refcnts.Model, o)) > 0 ==>
                && borrowed == delta && remaining == Counter(refcnts.Model, o) && o in refcnts.View()
                && Changed(old(refcnts.Model), refcnts.Model, o, Less(old(Stored(refcnts.Model, o)), 4 * delta))
    {
      var found, b := refcnts.LookupBucketFor(o);
      ghost var v := refcnts.View();
      assert found ==> v[o] == refcnts.buckets[b].val;
      if !found { return 0, 0; }
      var oldRefcnt := refcnts.buckets[b].val;
      if oldRefcnt == 0 { return 0, 0; }
      Store(b, o, Less(oldRefcnt, 4 * delta));
      return delta, Less(oldRefcnt, 4 * delta) / 4;
    }

    /** sidetable_getExtraRC_nolock */
    method GetExtraRC(o: nat) returns (count: nat)
      requires Valid()
      ensures count == Counter(refcnts.Model, o)
    {
      var v := GetWord(o);
      count := v / 4;
    }

    /** sidetable_clearExtraRC_nolock erases the entry its find gives it, so
        there must be one. */
    method ClearExtraRC(o: nat)
      requires Valid() && refcnts.buckets.Length <= MAX_BUCKETS && o in refcnts.View()
      modifies refcnts, refcnts.buckets
      ensures Valid() && (refcnts.buckets == old(refcnts.buckets) || fresh(refcnts.buckets))
      ensures Changed(old(refcnts.Model), refcnts.Model, o, 0)
    {
      var erased := refcnts.Erase(o);
      assert erased;
    }
  }

  /** Unsigned subtraction on 64 bits. */
  function Less(x: nat, y: nat): nat
    requires x < WORD && y < WORD
  {
    if x >= y then x - y else x + WORD - y
  }

  // ---------------------------------------------- the counter of the machine

  /** An object whose side-table word is a plain count: no flags, not pinned. */
  predicate PlainCount(m: map<nat, nat>, o: nat) { Stored(m, o) % 4 == 0 && Stored(m, o) < PINNED }

  /** The map after is before with the count of o replaced. */
  ghost predicate Counted(before: map<nat, nat>, after: map<nat, nat>, o: nat, count: nat) {
    && PlainCount(after, o) && Counter(after, o) == count
    && forall x: nat :: x != o ==> Stored(after, x) == Stored(before, x)
  }

  /** A retain that spills half of its inline count credits the counter. */
  method Spill(r: Refcounts, o: nat, half: nat)
    requires r.Valid() && r.refcnts.buckets.Length <= MAX_BUCKETS && PlainCount(r.refcnts.Model, o)
    requires 4 * (Counter(r.refcnts.Model, o) + half) < PINNED
    modifies r.refcnts, r.refcnts.buckets
    ensures r.Valid() && (r.refcnts.buckets == old(r.refcnts.buckets) || fresh(r.refcnts.buckets))
    ensures Counted(old(r.refcnts.Model), r.refcnts.Model, o, old(Counter(r.refcnts.Model, o)) + half)
  {
    ghost var before := r.refcnts.Model;
    var pinned := r.AddExtraRC(o, half);
    FourTimes(Stored(before, o), half);
    CountedBy(before, r.refcnts.Model, o, Stored(before, o) + 4 * half);
  }

  lemma FourTimes(w: nat, n: nat)
    ensures (w + 4 * n) / 4 == w / 4 + n && (w + 4 * n) % 4 == w % 4
  {
  }

  lemma CountedBy(before: map<nat, nat>, after: map<nat, nat>, o: nat, v: nat)
    requires Changed(before, after, o, v) && v % 4 == 0 && v < PINNED
    ensures Counted(before, after, o, v / 4)
  {
  }

  /** The counter gives half a range or nothing. */
  method TakeHalf(r: Refcounts, o: nat, half: nat) returns (borrowed: nat, emptied: bool)
    requires r.Valid() && PlainCount(r.refcnts.Model, o)
    requires 0 < 4 * half < PINNED && Counter(r.refcnts.Model, o) % half == 0
    modifies r.refcnts, r.refcnts.buckets
    ensures r.Valid() && r.refcnts.buckets == old(r.refcnts.buckets)
    ensures borrowed == RetainRelease.Min(half, old(Counter(r.refcnts.Model, o)))
            && (borrowed > 0 ==> o in r.refcnts.View())
    ensures emptied <==> old(Counter(r.refcnts.Model, o)) == borrowed
    ensures Counted(old(r.refcnts.Model), r.refcnts.Model, o, old(Counter(r.refcnts.Model, o)) - borrowed)
  {
    HalfOrNone(Counter(r.refcnts.Model, o), half);
    var remaining;
    borrowed, remaining := r.SubExtraRC(o, half);
    emptied := remaining == 0;
  }

  /** A release that borrows.  When the isa takes what was borrowed, an emptied
      entry is cleared, and its find succeeds because nothing came between; when
      the isa has changed, everything is put back. */
  method Borrow(r: Refcounts, o: nat, half: nat, stored: bool) returns (borrowed: nat, emptied: bool)
    requires r.Valid() && r.refcnts.buckets.Length <= MAX_BUCKETS && PlainCount(r.refcnts.Model, o)
    requires 0 < 4 * half < PINNED && Counter(r.refcnts.Model, o) % half == 0
    modifies r.refcnts, r.refcnts.buckets
    ensures r.Valid() && borrowed == RetainRelease.Min(half, old(Counter(r.refcnts.Model, o)))
    ensures emptied <==> old(Counter(r.refcnts.Model, o)) == borrowed
    ensures Counted(old(r.refcnts.Model), r.refcnts.Model, o,
                    old(Counter(r.refcnts.Model, o)) - if stored then borrowed else 0)
  {
    borrowed, emptied := TakeHalf(r, o, half);
    if borrowed > 0 {
      if !stored {
        Spill(r, o, borrowed);
      } else if emptied {
        r.ClearExtraRC(o);
      }
    }
  }

  lemma HalfOrNone(count: nat, half: nat)
    requires half > 0 && count % half == 0
    ensures count == 0 || count >= half
  {
  }
}
