/** The bucket array of a DenseMap as a value: what makes it well formed, which
    map it stands for, and how single-bucket writes change that. */
module DenseTable {
  import opened Bits
  import opened Probing

  /** A bucket.  The empty and tombstone keys of KeyInfoT are constructors. */
  datatype Slot<K, V> = Empty | Tombstone | Live(key: K, val: V)

  // ---------------------------------------------------------- well-formedness

  /** No key occupies two buckets. */
  ghost predicate Unique<K, V>(t: seq<Slot<K, V>>) {
    forall b, c :: 0 <= b < |t| && 0 <= c < |t| && t[b].Live? && t[c].Live? && t[b].key == t[c].key ==> b == c
  }

  /** The first i probes for hash h all hit non-empty buckets. */
  ghost predicate NoGap<K, V>(t: seq<Slot<K, V>>, h: nat, i: nat) {
    |t| > 0 && forall j: nat :: j < i ==> !t[Probe(h, j, |t|)].Empty?
  }

  /** A search for hash h gets to bucket b before it meets an empty one. */
  ghost predicate OnPath<K, V>(t: seq<Slot<K, V>>, h: nat, b: nat) {
    |t| > 0 && exists i: nat :: NoGap(t, h, i) && Probe(h, i, |t|) == b
  }

  ghost predicate Placed<K, V>(hash: K -> nat, t: seq<Slot<K, V>>) {
    forall b: nat :: b < |t| && t[b].Live? ==> OnPath(t, hash(t[b].key), b)
  }

  ghost predicate Good<K, V>(hash: K -> nat, t: seq<Slot<K, V>>) { Unique(t) && Placed(hash, t) }

  ghost predicate HasKey<K, V>(t: seq<Slot<K, V>>, k: K) {
    exists b :: 0 <= b < |t| && t[b].Live? && t[b].key == k
  }

  /** The map the buckets stand for. */
  ghost function Contents<K(!new), V>(t: seq<Slot<K, V>>): (m: map<K, V>)
    requires Unique(t)
    ensures forall k :: k in m <==> HasKey(t, k)
    ensures forall b :: 0 <= b < |t| && t[b].Live? ==> t[b].key in m && m[t[b].key] == t[b].val
  {
    map b | 0 <= b < |t| && t[b].Live? :: t[b].key := t[b].val
  }

  // ------------------------------------------------------------------ counts

  function LiveOf<K, V>(s: Slot<K, V>): nat { if s.Live? then 1 else 0 }
  function TombOf<K, V>(s: Slot<K, V>): nat { if s.Tombstone? then 1 else 0 }
  function EmptyOf<K, V>(s: Slot<K, V>): nat { if s.Empty? then 1 else 0 }

  function Lives<K, V>(t: seq<Slot<K, V>>): nat {
    if t == [] then 0 else Lives(t[..|t| - 1]) + LiveOf(t[|t| - 1])
  }
  function Tombs<K, V>(t: seq<Slot<K, V>>): nat {
    if t == [] then 0 else Tombs(t[..|t| - 1]) + TombOf(t[|t| - 1])
  }
  function Empties<K, V>(t: seq<Slot<K, V>>): nat {
    if t == [] then 0 else Empties(t[..|t| - 1]) + EmptyOf(t[|t| - 1])
  }

  lemma {:induction false} CountsAddUp<K, V>(t: seq<Slot<K, V>>)
    ensures Lives(t) + Tombs(t) + Empties(t) == |t|
  {
    if t != [] { CountsAddUp(t[..|t| - 1]); }
  }

  lemma {:induction false} CountsUpdate<K, V>(t: seq<Slot<K, V>>, b: nat, s: Slot<K, V>)
    requires b < |t|
    ensures Lives(t[b := s]) == Lives(t) - LiveOf(t[b]) + LiveOf(s)
    ensures Tombs(t[b := s]) == Tombs(t) - TombOf(t[b]) + TombOf(s)
    ensures Empties(t[b := s]) == Empties(t) - EmptyOf(t[b]) + EmptyOf(s)
    decreases |t|
  {
    var n := |t| - 1;
    if b == n {
      assert t[b := s][..n] == t[..n];
    } else {
      assert t[b := s][..n] == t[..n][b := s];
      CountsUpdate(t[..n], b, s);
    }
  }

  lemma {:induction false} AllEmptyCounts<K, V>(t: seq<Slot<K, V>>)
    requires forall b :: 0 <= b < |t| ==> t[b].Empty?
    ensures Lives(t) == 0 && Tombs(t) == 0 && Empties(t) == |t|
  {
    if t != [] { AllEmptyCounts(t[..|t| - 1]); }
  }

  lemma {:induction false} SomeEmpty<K, V>(t: seq<Slot<K, V>>) returns (b: nat)
    requires Empties(t) > 0
    ensures b < |t| && t[b].Empty?
  {
    if t[|t| - 1].Empty? { b := |t| - 1; } else { b := SomeEmpty(t[..|t| - 1]); }
  }

  /** As many bindings as live buckets. */
  lemma {:induction false} ContentsSize<K(!new), V>(t: seq<Slot<K, V>>)
    requires Unique(t)
    ensures |Contents(t)| == Lives(t)
  {
    if t != [] {
      ExtendContents(t);
      ContentsSize(t[..|t| - 1]);
    }
  }

  /** Two-sided test for being the map of a table. */
  lemma ContentsIs<K(!new), V>(t: seq<Slot<K, V>>, m: map<K, V>)
    requires Unique(t)
    requires forall b :: 0 <= b < |t| && t[b].Live? ==> t[b].key in m && m[t[b].key] == t[b].val
    requires forall k :: k in m ==> HasKey(t, k)
    ensures Contents(t) == m
  {
  }

  lemma ExtendContents<K(!new), V>(t: seq<Slot<K, V>>)
    requires t != [] && Unique(t)
    ensures Unique(t[..|t| - 1])
    ensures var n := |t| - 1;
            Contents(t) == (if t[n].Live? then Contents(t[..n])[t[n].key := t[n].val] else Contents(t[..n]))
    ensures t[|t| - 1].Live? ==> t[|t| - 1].key !in Contents(t[..|t| - 1])
  {
    var n := |t| - 1;
    var m := if t[n].Live? then Contents(t[..n])[t[n].key := t[n].val] else Contents(t[..n]);
    forall k | k in m ensures HasKey(t, k) {
      if !(t[n].Live? && k == t[n].key) {
        assert HasKey(t[..n], k);
        var b :| 0 <= b < n && t[..n][b].Live? && t[..n][b].key == k;
        assert t[b].Live? && t[b].key == k;
      }
    }
    forall b | 0 <= b < |t| && t[b].Live? ensures t[b].key in m && m[t[b].key] == t[b].val {
      if b < n { assert t[..n][b] == t[b]; }
    }
    ContentsIs(t, m);
  }

  // ----------------------------------------------------- writes to one bucket

  /** Filling a non-empty or empty bucket never opens a gap. */
  lemma PathSurvives<K, V>(t: seq<Slot<K, V>>, b: nat, s: Slot<K, V>, h: nat, c: nat)
    requires b < |t| && !s.Empty? && OnPath(t, h, c)
    ensures OnPath(t[b := s], h, c)
  {
  }

  lemma PutGood<K, V>(hash: K -> nat, t: seq<Slot<K, V>>, b: nat, k: K, v: V)
    requires Good(hash, t) && b < |t| && OnPath(t, hash(k), b)
    requires !HasKey(t, k) || (t[b].Live? && t[b].key == k)
    ensures Good(hash, t[b := Live(k, v)])
  {
  }

  lemma PutContents<K(!new), V>(t: seq<Slot<K, V>>, b: nat, k: K, v: V)
    requires Unique(t) && b < |t| && Unique(t[b := Live(k, v)])
    ensures Contents(t[b := Live(k, v)])
            == (if t[b].Live? then Contents(t) - {t[b].key} else Contents(t))[k := v]
  {
    var u := t[b := Live(k, v)];
    var m := (if t[b].Live? then Contents(t) - {t[b].key} else Contents(t))[k := v];
    forall x | x in m ensures HasKey(u, x) {
      if x == k {
        assert u[b].Live? && u[b].key == k;
      } else {
        assert x in Contents(t);
        var c :| 0 <= c < |t| && t[c].Live? && t[c].key == x;
        assert u[c].Live? && u[c].key == x;
      }
    }
    forall c | 0 <= c < |u| && u[c].Live? ensures u[c].key in m && m[u[c].key] == u[c].val {
      if c != b { assert u[c] == t[c]; }
    }
    ContentsIs(u, m);
  }

  lemma KillGood<K(!new), V>(hash: K -> nat, t: seq<Slot<K, V>>, b: nat)
    requires Good(hash, t) && b < |t| && t[b].Live?
    ensures Good(hash, t[b := Tombstone])
    ensures Contents(t[b := Tombstone]) == Contents(t) - {t[b].key}
  {
    var u := t[b := Tombstone];
    forall c: nat | c < |u| && u[c].Live? ensures OnPath(u, hash(u[c].key), c) {
      PathSurvives(t, b, Tombstone, hash(u[c].key), c);
    }
    assert Unique(u);
    var m := Contents(t) - {t[b].key};
    forall x | x in m ensures HasKey(u, x) {
      var c :| 0 <= c < |t| && t[c].Live? && t[c].key == x;
      assert u[c] == t[c];
    }
    ContentsIs(u, m);
  }

  // ------------------------------------------------------------------ search

  /** A search that has met neither the key nor an empty bucket in i probes and
      finds an empty one next has shown the key absent. */
  lemma AbsentAfterGap<K, V>(hash: K -> nat, t: seq<Slot<K, V>>, k: K, i: nat)
    requires Good(hash, t) && |t| > 0
    requires t[Probe(hash(k), i, |t|)].Empty?
    requires forall j: nat :: j < i ==> var s := t[Probe(hash(k), j, |t|)]; !(s.Live? && s.key == k)
    ensures !HasKey(t, k)
  {
  }

  /** Where an absent key may be written: a bucket its search reaches that is
      empty, a tombstone, or holds a purgeable value. */
  ghost predicate Spot<K, V>(hash: K -> nat, purgeable: V -> bool, t: seq<Slot<K, V>>, k: K, b: nat) {
    b < |t| && OnPath(t, hash(k), b) && (t[b].Live? ==> purgeable(t[b].val))
  }

  // -------------------------------------------------------------- refinement

  /** have is want with some purgeable bindings missing. */
  ghost predicate Refines<K(!new), V>(purgeable: V -> bool, have: map<K, V>, want: map<K, V>) {
    && (forall k :: k in have ==> k in want && want[k] == have[k])
    && (forall k :: k in want && !purgeable(want[k]) ==> k in have)
  }

  /** The bindings a rehash keeps. */
  ghost function Kept<K, V>(purgeable: V -> bool, m: map<K, V>): map<K, V> {
    map k | k in m && !purgeable(m[k]) :: m[k]
  }

  /** What dropping purgeable bindings and writing k may do to a map. */
  ghost predicate OnlyPurged<K(!new), V>(purgeable: V -> bool, before: map<K, V>, after: map<K, V>, k: K) {
    && (forall x :: x in after && x != k ==> x in before && before[x] == after[x])
    && (forall x :: x in before && x != k && !purgeable(before[x]) ==> x in after)
  }

  lemma {:induction false} LivesPrefix<K, V>(t: seq<Slot<K, V>>, i: nat)
    requires i <= |t|
    ensures Lives(t[..i]) <= Lives(t)
    decreases |t|
  {
    if i < |t| {
      LivesPrefix(t[..|t| - 1], i);
      assert t[..|t| - 1][..i] == t[..i];
    } else {
      assert t[..i] == t;
    }
  }

  // ------------------------------------------------------------------ sizing

  /** The shape of every table between operations: no buckets at all, or a
      power of two of at least four, less than three quarters live and more
      than one eighth empty. */
  ghost predicate Sized<K, V>(t: seq<Slot<K, V>>) {
    |t| > 0 ==> IsPow2(|t|) && |t| >= 4 && 4 * Lives(t) < 3 * |t| && Empties(t) > |t| / 8
  }

  /** Without tombstones a light load leaves enough empty buckets. */
  lemma LightIsSized<K, V>(t: seq<Slot<K, V>>)
    requires IsPow2(|t|) && |t| >= 4 && Tombs(t) == 0 && 4 * Lives(t) < 3 * |t|
    ensures Sized(t)
  {
    CountsAddUp(t);
  }

  /** One step of a rehash: bucket i of the old table contributes its binding
      unless that is purgeable. */
  lemma KeptExtends<K(!new), V>(purgeable: V -> bool, t: seq<Slot<K, V>>, i: nat)
    requires Unique(t) && i < |t|
    ensures Unique(t[..i]) && Unique(t[..i + 1])
    ensures t[i].Live? && !purgeable(t[i].val) ==>
              && t[i].key !in Kept(purgeable, Contents(t[..i]))
              && Kept(purgeable, Contents(t[..i + 1])) == Kept(purgeable, Contents(t[..i]))[t[i].key := t[i].val]
    ensures !(t[i].Live? && !purgeable(t[i].val)) ==>
              Kept(purgeable, Contents(t[..i + 1])) == Kept(purgeable, Contents(t[..i]))
  {
    PrefixContents(t, i);
    if t[i].Live? { KeptUpdate(purgeable, Contents(t[..i]), t[i].key, t[i].val); }
  }

  lemma PrefixContents<K(!new), V>(t: seq<Slot<K, V>>, i: nat)
    requires Unique(t) && i < |t|
    ensures Unique(t[..i]) && Unique(t[..i + 1])
    ensures Contents(t[..i + 1]) == (if t[i].Live? then Contents(t[..i])[t[i].key := t[i].val] else Contents(t[..i]))
    ensures t[i].Live? ==> t[i].key !in Contents(t[..i])
  {
    var u := t[..i + 1];
    assert forall b :: 0 <= b <= i ==> u[b] == t[b];
    assert u[..i] == t[..i];
    ExtendContents(u);
  }

  lemma KeptUpdate<K, V>(purgeable: V -> bool, m: map<K, V>, k: K, v: V)
    requires k !in m
    ensures Kept(purgeable, m[k := v]) == (if purgeable(v) then Kept(purgeable, m) else Kept(purgeable, m)[k := v])
  {
  }

  /** Writing key k into a spot of a table that lacks it and holds nothing
      purgeable and no tombstone. */
  lemma PutFresh<K(!new), V>(hash: K -> nat, purgeable: V -> bool, t: seq<Slot<K, V>>, b: nat, k: K, v: V)
    requires Good(hash, t) && Spot(hash, purgeable, t, k, b) && !HasKey(t, k)
    requires Tombs(t) == 0 && forall x :: x in Contents(t) ==> !purgeable(Contents(t)[x])
    ensures Good(hash, t[b := Live(k, v)])
    ensures Contents(t[b := Live(k, v)]) == Contents(t)[k := v]
    ensures Lives(t[b := Live(k, v)]) == Lives(t) + 1 && Tombs(t[b := Live(k, v)]) == 0
  {
    PutGood(hash, t, b, k, v);
    PutContents(t, b, k, v);
    CountsUpdate(t, b, Live(k, v));
  }

  // ---------------------------------------- how single changes move the view

  lemma RefinesKept<K(!new), V>(purgeable: V -> bool, have: map<K, V>, want: map<K, V>)
    requires Refines(purgeable, have, want)
    ensures Refines(purgeable, Kept(purgeable, have), want)
  {
  }

  /** Writing k over an empty bucket, a tombstone or a purgeable binding. */
  lemma PutSpot<K(!new), V>(hash: K -> nat, purgeable: V -> bool, t: seq<Slot<K, V>>, b: nat, k: K, v: V)
    requires Good(hash, t) && Spot(hash, purgeable, t, k, b) && !HasKey(t, k)
    ensures Good(hash, t[b := Live(k, v)])
    ensures k in Contents(t[b := Live(k, v)]) && Contents(t[b := Live(k, v)])[k] == v
    ensures OnlyPurged(purgeable, Contents(t), Contents(t[b := Live(k, v)]), k)
  {
    PutGood(hash, t, b, k, v);
    PutContents(t, b, k, v);
  }

  lemma RefinesPut<K(!new), V>(purgeable: V -> bool, before: map<K, V>, after: map<K, V>, want: map<K, V>, k: K, v: V)
    requires Refines(purgeable, before, want) && OnlyPurged(purgeable, before, after, k)
    requires k in after && after[k] == v
    ensures Refines(purgeable, after, want[k := v])
  {
  }

  /** The size bounds after a write that had room. */
  lemma PutSized<K, V>(t: seq<Slot<K, V>>, b: nat, k: K, v: V)
    requires Sized(t) && b < |t|
    requires 4 * (Lives(t) + 1) < 3 * |t| && |t| - (Lives(t) + 1 + Tombs(t)) > |t| / 8
    ensures Sized(t[b := Live(k, v)])
  {
    CountsUpdate(t, b, Live(k, v));
    CountsAddUp(t);
  }

  /** All that a new entry does to a table and to what it stands for. */
  lemma PutEntry<K(!new), V>(hash: K -> nat, purgeable: V -> bool, t: seq<Slot<K, V>>, b: nat, k: K, v: V,
                             want: map<K, V>)
    requires Good(hash, t) && Spot(hash, purgeable, t, k, b) && !HasKey(t, k) && Sized(t)
    requires 4 * (Lives(t) + 1) < 3 * |t| && |t| - (Lives(t) + 1 + Tombs(t)) > |t| / 8
    requires Refines(purgeable, Contents(t), want)
    ensures var u := t[b := Live(k, v)];
            && Good(hash, u) && Sized(u)
            && Lives(u) == Lives(t) - LiveOf(t[b]) + 1 && Tombs(u) == Tombs(t) - TombOf(t[b])
            && Refines(purgeable, Contents(u), want[k := v])
            && k in Contents(u) && Contents(u)[k] == v
            && OnlyPurged(purgeable, Contents(t), Contents(u), k)
  {
    PutSpot(hash, purgeable, t, b, k, v);
    PutSized(t, b, k, v);
    CountsUpdate(t, b, Live(k, v));
    RefinesPut(purgeable, Contents(t), Contents(t[b := Live(k, v)]), want, k, v);
  }

  /** All that storing a new value into a live bucket does. */
  lemma StoreEntry<K(!new), V>(hash: K -> nat, purgeable: V -> bool, t: seq<Slot<K, V>>, b: nat, v: V, want: map<K, V>)
    requires Good(hash, t) && b < |t| && t[b].Live? && Sized(t)
    requires Refines(purgeable, Contents(t), want)
    ensures var u := t[b := Live(t[b].key, v)];
            && Good(hash, u) && Sized(u) && Lives(u) == Lives(t) && Tombs(u) == Tombs(t)
            && Contents(u) == Contents(t)[t[b].key := v]
            && Refines(purgeable, Contents(u), want[t[b].key := v])
  {
    var k := t[b].key;
    assert OnPath(t, hash(k), b);
    PutGood(hash, t, b, k, v);
    PutContents(t, b, k, v);
    CountsUpdate(t, b, Live(k, v));
    Overwrite(Contents(t), k, v);
    RefinesStore(purgeable, Contents(t), want, k, v);
  }

  lemma Overwrite<K, V>(m: map<K, V>, k: K, v: V)
    ensures (m - {k})[k := v] == m[k := v]
  {
  }

  lemma RefinesStore<K(!new), V>(purgeable: V -> bool, have: map<K, V>, want: map<K, V>, k: K, v: V)
    requires Refines(purgeable, have, want)
    ensures Refines(purgeable, have[k := v], want[k := v])
  {
  }
}
