/** The data of the perfect-hash builder and what it means for it to be right.

    Pointers into arrays are indices; a null pointer is NIL. */
module PerfectHashSpec {
  import opened Bits
  import PowerOfTwo

  const NIL: int := -1
  const SCRAMBLE_LEN: nat := 256

  /** A 64-bit word. */
  type Word64 = x: nat | x < 0x1_0000_0000_0000_0000

  /** struct key: a and b are the two halves of its initial hash.  The link
      field nextb_k is kept in a sequence of its own. */
  datatype Key = Key(name: string, a: nat, b: nat)

  /** struct bstuff */
  datatype BStuff = BStuff(val: nat, list: int, listlen: nat, water: nat)

  /** struct qstuff */
  datatype QStuff = QStuff(b: int, parent: nat, newval: nat, oldval: nat)

  /** The final hash of key k: a ^ scramble[tab[b]]. */
  function SlotOf(keys: seq<Key>, tabb: seq<BStuff>, scramble: seq<nat>, k: nat): nat
    requires k < |keys| && keys[k].b < |tabb| && tabb[keys[k].b].val < |scramble|
  {
    Xor(keys[k].a, scramble[tabb[keys[k].b].val])
  }

  /** Every number is in the range its index computations need. */
  ghost predicate InRange(keys: seq<Key>, tabb: seq<BStuff>, scramble: seq<nat>, lg: nat) {
    && |scramble| == SCRAMBLE_LEN
    && (forall i :: 0 <= i < |scramble| ==> scramble[i] < Pow2(lg))
    && (forall k :: 0 <= k < |keys| ==> keys[k].a < Pow2(lg) && keys[k].b < |tabb|)
    && (forall b :: 0 <= b < |tabb| ==> tabb[b].val < SCRAMBLE_LEN)
  }

  /** No two keys share both a and b. */
  ghost predicate DistinctPairs(keys: seq<Key>) { DistinctUpTo(keys, |keys|) }

  ghost predicate DistinctUpTo(keys: seq<Key>, n: nat)
    requires n <= |keys|
  {
    forall i, j :: 0 <= i < j < n ==> keys[i].a != keys[j].a || keys[i].b != keys[j].b
  }

  /** p is the last key before position i whose b is b, or NIL. */
  ghost predicate LastBefore(keys: seq<Key>, i: nat, b: nat, p: int) {
    && -1 <= p < i <= |keys|
    && (p >= 0 ==> keys[p].b == b)
    && (forall j :: p < j < i ==> keys[j].b != b)
  }

  /** How many of the first n keys have this b. */
  function CountTo(keys: seq<Key>, n: nat, b: nat): nat
    requires n <= |keys|
  {
    if n == 0 then 0 else CountTo(keys, n - 1, b) + (if keys[n - 1].b == b then 1 else 0)
  }

  /** The links of the first n keys: next[i] is the key after i in its list. */
  ghost predicate LinkedKeys(keys: seq<Key>, next: seq<int>, n: nat) {
    n <= |keys| == |next| && forall i {:trigger next[i]} :: 0 <= i < n ==> LastBefore(keys, i, keys[i].b, next[i])
  }

  /** The list heads and lengths for the first n keys. */
  ghost predicate LinkedHeads(keys: seq<Key>, tabb: seq<BStuff>, n: nat) {
    n <= |keys| && forall b {:trigger tabb[b].list} {:trigger tabb[b].listlen} :: 0 <= b < |tabb| ==>
      LastBefore(keys, n, b, tabb[b].list) && tabb[b].listlen == CountTo(keys, n, b)
  }

  ghost predicate Linked(keys: seq<Key>, next: seq<int>, tabb: seq<BStuff>, n: nat) {
    LinkedKeys(keys, next, n) && LinkedHeads(keys, tabb, n)
  }

  lemma {:induction false} CountPositive(keys: seq<Key>, n: nat, b: nat, k: nat)
    requires k < n <= |keys| && keys[k].b == b
    ensures CountTo(keys, n, b) > 0
  {
    if k < n - 1 { CountPositive(keys, n - 1, b, k); }
  }

  /** The slots hold exactly the keys whose b is done, each at its own hash. */
  ghost predicate Mapped(keys: seq<Key>, tabb: seq<BStuff>, tabh: seq<int>, scramble: seq<nat>, lg: nat, done: set<nat>)
    requires InRange(keys, tabb, scramble, lg)
  {
    && |tabh| == Pow2(lg)
    && (forall h :: 0 <= h < |tabh| && tabh[h] != NIL ==>
          0 <= tabh[h] < |keys| && keys[tabh[h]].b in done && SlotOf(keys, tabb, scramble, tabh[h]) == h)
    && (forall k :: 0 <= k < |keys| && keys[k].b in done ==>
          SlotOf(keys, tabb, scramble, k) < |tabh| && tabh[SlotOf(keys, tabb, scramble, k)] == k)
  }

  /** Every key of b would land on a free slot if tab[b] were i. */
  ghost predicate Free(keys: seq<Key>, tabh: seq<int>, scramble: seq<nat>, b: nat, i: nat)
    requires i < |scramble|
  {
    forall k :: 0 <= k < |keys| && keys[k].b == b ==>
      Xor(keys[k].a, scramble[i]) < |tabh| && tabh[Xor(keys[k].a, scramble[i])] == NIL
  }

  lemma SlotBound(keys: seq<Key>, tabb: seq<BStuff>, scramble: seq<nat>, lg: nat, k: nat, i: nat)
    requires InRange(keys, tabb, scramble, lg) && k < |keys| && i < |scramble|
    ensures Xor(keys[k].a, scramble[i]) < Pow2(lg)
  {
    XorBound(keys[k].a, scramble[i], lg);
  }

  /** Two keys of one b never meet: the same scramble word moves both. */
  lemma SiblingsApart(keys: seq<Key>, k1: nat, k2: nat, s: nat)
    requires DistinctPairs(keys) && k1 < |keys| && k2 < |keys| && k1 != k2 && keys[k1].b == keys[k2].b
    ensures Xor(keys[k1].a, s) != Xor(keys[k2].a, s)
  {
    if Xor(keys[k1].a, s) == Xor(keys[k2].a, s) {
      XorInjective(keys[k1].a, keys[k2].a, s);
    }
  }

  // ------------------------------------------------------------ initial hash

  /** a and b of a 64-bit hash: its top lga bits and its remainder modulo the
      power of two blen. */
  function PartA(h: Word64, lga: nat): nat
    requires lga <= 64
  {
    if lga > 0 then Shr(h, 64 - lga) else 0
  }

  function PartB(h: Word64, blen: nat): nat
    requires blen > 0
  {
    if blen > 1 then h % blen else 0
  }

  lemma PartARange(h: Word64, lga: nat)
    requires lga <= 64
    ensures PartA(h, lga) < Pow2(lga)
  {
    if lga > 0 {
      Pow2Of64();
      ShrBound(h, 64 - lga, lga);
    }
  }

  lemma Pow2Of64()
    ensures Pow2(64) == 0x1_0000_0000_0000_0000
  {
    Pow2Add(32, 32);
    PowerOfTwo.WordIsPow2();
  }

  /** Whether this salt gives the keys pairwise distinct (a,b). */
  ghost predicate DistinctUnder(lookup: (string, Word64) -> Word64, keys: seq<Key>, salt: Word64, lga: nat, blen: nat)
    requires lga <= 64 && blen > 0
  {
    forall i, j :: 0 <= i < j < |keys| ==>
      var h1, h2 := lookup(keys[i].name, salt), lookup(keys[j].name, salt);
      PartA(h1, lga) != PartA(h2, lga) || PartB(h1, blen) != PartB(h2, blen)
  }

  lemma DoubleRemainder(x: nat, y: nat, m: nat, d: nat)
    requires m > 0 && d == m + m && x % d == y % d
    ensures x % m == y % m
  {
    var q := SameRemainder(x, y, d);
    assert q * d == (2 * q) * m;
    RemainderSame(x, y, m, 2 * q);
  }

  lemma SameRemainder(x: nat, y: nat, d: nat) returns (q: int)
    requires d > 0 && x % d == y % d
    ensures x - y == q * d
  {
    q := x / d - y / d;
  }

  lemma RemainderSame(x: nat, y: nat, m: nat, t: int)
    requires m > 0 && x - y == t * m
    ensures x % m == y % m
  {
    ShiftedRemainder(x, y, m, t, y / m, y % m);
  }

  lemma ShiftedRemainder(x: nat, y: nat, m: nat, t: int, q: nat, r: nat)
    requires m > 0 && x - y == t * m && y == m * q + r && r < m
    ensures x % m == r
  {
    assert x == m * (q + t) + r;
    QuotientNonNegative(m, q + t, r);
    DivUnique(x, m, q + t, r);
  }

  lemma QuotientNonNegative(m: nat, s: int, r: nat)
    requires r < m && m * s + r >= 0
    ensures s >= 0
  {
  }

  /** Doubling blen under the same salt keeps all (a,b) pairs distinct, so the
      retry after an enlarged table starts from a known good salt. */
  lemma DoublingKeepsDistinct(lookup: (string, Word64) -> Word64, keys: seq<Key>, salt: Word64, lga: nat, blen: nat)
    requires lga <= 64 && blen > 0 && DistinctUnder(lookup, keys, salt, lga, blen)
    ensures DistinctUnder(lookup, keys, salt, lga, 2 * blen)
  {
    forall i, j | 0 <= i < j < |keys|
      ensures var h1, h2 := lookup(keys[i].name, salt), lookup(keys[j].name, salt);
              PartB(h1, 2 * blen) == PartB(h2, 2 * blen) ==> PartB(h1, blen) == PartB(h2, blen)
    {
      var h1, h2 := lookup(keys[i].name, salt), lookup(keys[j].name, salt);
      if PartB(h1, 2 * blen) == PartB(h2, 2 * blen) { DoubleRemainder(h1, h2, blen, 2 * blen); }
    }
  }
}
