/** Triangular probing: the bucket numbers LookupBucketFor visits. */
module Probing {
  import opened Bits
  import opened Counting
  import opened Divisibility

  /** The bucket visited by probe i (counting from 0) for a key with hash h in
      a table of n buckets.  The source masks with n - 1, which for its
      power-of-two sizes is the remainder. */
  function Probe(h: nat, i: nat, n: nat): (b: nat)
    requires n > 0
    ensures b < n
  {
    if i == 0 then h % n else (Probe(h, i - 1, n) + i) % n
  }

  /** 1 + 2 + ... + i */
  function Triangle(i: nat): nat { if i == 0 then 0 else Triangle(i - 1) + i }

  /** x and y differ by a multiple of n. */
  ghost predicate Congruent(x: int, y: int, n: nat) { exists q: int :: x - y == q * n }

  lemma CongruentIntro(x: int, y: int, n: nat, q: int)
    requires x - y == q * n
    ensures Congruent(x, y, n)
  {
  }

  lemma ModCongruent(x: nat, n: nat)
    requires n > 0
    ensures Congruent(x % n, x, n)
  {
    var q := x / n;
    assert x == q * n + x % n;
    CongruentIntro(x % n, x, n, -q);
  }

  lemma CongruentTrans(x: int, y: int, z: int, n: nat)
    requires Congruent(x, y, n) && Congruent(y, z, n)
    ensures Congruent(x, z, n)
  {
    var q1 :| x - y == q1 * n;
    var q2 :| y - z == q2 * n;
    assert x - z == (q1 + q2) * n;
  }

  lemma CongruentShift(x: int, y: int, z: int, n: nat)
    requires Congruent(x, y, n)
    ensures Congruent(x + z, y + z, n) && Congruent(y, x, n)
  {
    var q :| x - y == q * n;
    CongruentIntro(x + z, y + z, n, q);
    assert y - x == (-q) * n;
  }

  lemma {:induction false} ProbeIsTriangle(h: nat, i: nat, n: nat)
    requires n > 0
    ensures Congruent(Probe(h, i, n), h + Triangle(i), n)
  {
    if i == 0 {
      ModCongruent(h, n);
    } else {
      ProbeIsTriangle(h, i - 1, n);
      ModCongruent(Probe(h, i - 1, n) + i, n);
      CongruentShift(Probe(h, i - 1, n), h + Triangle(i - 1), i, n);
      CongruentTrans(Probe(h, i, n), Probe(h, i - 1, n) + i, h + Triangle(i), n);
    }
  }

  /** Two probes of the same search, both among the first n, visit different
      buckets when n is a power of two. */
  lemma ProbesDistinct(h: nat, i: nat, j: nat, k: nat)
    requires i < j < Pow2(k)
    ensures Probe(h, i, Pow2(k)) != Probe(h, j, Pow2(k))
  {
    if Probe(h, i, Pow2(k)) == Probe(h, j, Pow2(k)) {
      var q := SameProbe(h, i, j, Pow2(k));
      TriangleNotMultiple(i, j, k, q);
    }
  }

  lemma TriangleNotMultiple(i: nat, j: nat, k: nat, q: int)
    requires i < j < Pow2(k)
    ensures Triangle(j) - Triangle(i) != q * Pow2(k)
  {
    var x, y := j - i, j + i + 1;
    TriangleGap(i, j);
    NoSmallFactors(x, y, k + 1);
    NotMultiple(x * y, Triangle(j) - Triangle(i), k, q);
  }

  lemma NotMultiple(z: int, d: int, k: nat, q: int)
    requires z == 2 * d && !Divides2(z, k + 1)
    ensures d != q * Pow2(k)
  {
    MultipleDivides(q, k);
  }

  lemma SameProbe(h: nat, i: nat, j: nat, n: nat) returns (q: int)
    requires n > 0 && Probe(h, i, n) == Probe(h, j, n)
    ensures Triangle(j) - Triangle(i) == q * n
  {
    ProbeIsTriangle(h, i, n);
    ProbeIsTriangle(h, j, n);
    var b := Probe(h, i, n);
    CongruentShift(b, h + Triangle(j), 0, n);
    CongruentTrans(h + Triangle(j), b, h + Triangle(i), n);
    q :| h + Triangle(j) - (h + Triangle(i)) == q * n;
  }

  lemma TriangleGap(i: nat, j: nat)
    requires i <= j
    ensures 2 * (Triangle(j) - Triangle(i)) == (j - i) * (j + i + 1)
  {
  }

  lemma NoSmallFactors(x: nat, y: nat, k: nat)
    requires 0 < x < Pow2(k) && 0 < y < Pow2(k) && (x + y) % 2 == 1
    ensures !Divides2(x * y, k)
  {
    SmallNotDivisible(x, k);
    SmallNotDivisible(y, k);
    if Divides2(x * y, k) {
      if x % 2 == 1 {
        OddCancels(x, y, k);
      } else {
        assert x * y == y * x;
        OddCancels(y, x, k);
      }
    }
  }

  // ---------------------------------------------------------- pigeonhole

  /** The buckets visited by the first m probes. */
  ghost function Visited(h: nat, m: nat, n: nat): set<nat>
    requires n > 0
  {
    set i: nat | i < m :: Probe(h, i, n)
  }

  lemma {:induction false} VisitedSize(h: nat, m: nat, k: nat)
    requires m <= Pow2(k)
    ensures |Visited(h, m, Pow2(k))| == m
  {
    if m > 0 {
      var n := Pow2(k);
      assert Visited(h, m, n) == Visited(h, m - 1, n) + {Probe(h, m - 1, n)};
      forall i: nat | i < m - 1 ensures Probe(h, i, n) != Probe(h, m - 1, n) {
        ProbesDistinct(h, i, m - 1, k);
      }
      VisitedSize(h, m - 1, k);
    }
  }

  /** The first n probes of any search visit every bucket of a table whose
      size n is a power of two. */
  lemma ProbesCover(h: nat, n: nat, b: nat) returns (i: nat)
    requires IsPow2(n) && b < n
    ensures i < n && Probe(h, i, n) == b
  {
    var k: nat :| k < n && n == Pow2(k);
    VisitedSize(h, n, k);
    BelowSize(n);
    SubsetSameSize(Visited(h, n, n), Below(n));
    assert b in Visited(h, n, n);
    i :| i < n && Probe(h, i, n) == b;
  }
}
