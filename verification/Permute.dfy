/** permute() and scramble[]: the fixed mixing function of the perfect hash. */
module Permutation {
  import opened Bits
  import opened Counting
  import opened Divisibility
  import PowerOfTwo

  /** x + (x << c), masked to n bits. */
  function AddShift(x: nat, c: nat, n: nat): nat { ((1 + Pow2(c)) * x) % Pow2(n) }

  function XorShift(x: nat, c: nat): nat { Xor(x, Shr(x, c)) }

  /** One round of permute on n bits. */
  function Round(x: nat, n: nat): nat {
    XorShift(AddShift(XorShift(AddShift(x, 1 + n / 2, n), 1 + n / 3), 1 + n / 4, n), 1 + n / 5)
  }

  function Rounds(x: nat, n: nat, i: nat): nat {
    if i == 0 then x else Round(Rounds(x, n, i - 1), n)
  }

  function Permute(x: nat, n: nat): nat { Rounds(x, n, 20) }

  // ---------------------------------------------------------------- 32 bits

  /** x + (x << c) on 32-bit words, masked to n bits. */
  function AddShift32(x: nat, c: nat, n: nat): nat {
    (x + (Pow2(c) * x) % 0x1_0000_0000) % 0x1_0000_0000 % Pow2(n)
  }

  function Round32(x: nat, n: nat): nat {
    XorShift(AddShift32(XorShift(AddShift32(x, 1 + n / 2, n), 1 + n / 3), 1 + n / 4, n), 1 + n / 5)
  }

  function Rounds32(x: nat, n: nat, i: nat): nat {
    if i == 0 then x else Round32(Rounds32(x, n, i - 1), n)
  }

  lemma DropMultiple(a: nat, b: nat, q: nat, k: nat, p: nat)
    requires p > 0 && a == b + q * (k * p)
    ensures a % p == b % p
  {
    assert a == p * (b / p + q * k) + b % p;
    DivUnique(a, p, b / p + q * k, b % p);
  }

  lemma Wraps(x: nat, y: nat, q1: nat, q2: nat, k: nat, p: nat, r: nat)
    requires p > 0 && r == x + (y - q1 * (k * p)) - q2 * (k * p)
    ensures r % p == (x + y) % p
  {
    assert x + y == r + (q1 + q2) * (k * p);
    DropMultiple(x + y, r, q1 + q2, k, p);
  }

  /** The 32-bit wrap cannot be seen through the mask. */
  lemma AddShiftWraps(x: nat, c: nat, n: nat)
    requires n <= 32
    ensures AddShift32(x, c, n) == AddShift(x, c, n)
  {
    PowerOfTwo.WordIsPow2();
    Pow2Add(32 - n, n);
    var y, m := Pow2(c) * x, 0x1_0000_0000;
    var z := x + y % m;
    assert (1 + Pow2(c)) * x == x + y;
    Wraps(x, y, y / m, z / m, Pow2(32 - n), Pow2(n), z % m);
  }

  /** permute computed on 32-bit words. */
  lemma {:induction false} RoundsWrap(x: nat, n: nat, i: nat)
    requires n <= 32
    ensures Rounds32(x, n, i) == Rounds(x, n, i)
  {
    if i > 0 {
      RoundsWrap(x, n, i - 1);
      var y := Rounds(x, n, i - 1);
      AddShiftWraps(y, 1 + n / 2, n);
      AddShiftWraps(XorShift(AddShift(y, 1 + n / 2, n), 1 + n / 3), 1 + n / 4, n);
    }
  }

  // ------------------------------------------------------------------- range

  lemma XorShiftRange(x: nat, c: nat, n: nat)
    requires x < Pow2(n)
    ensures XorShift(x, c) < Pow2(n)
  {
    ShrShrinks(x, c);
    XorBound(x, Shr(x, c), n);
  }

  lemma RoundRange(x: nat, n: nat)
    ensures Round(x, n) < Pow2(n)
  {
    XorShiftRange(AddShift(x, 1 + n / 2, n), 1 + n / 3, n);
    XorShiftRange(AddShift(XorShift(AddShift(x, 1 + n / 2, n), 1 + n / 3), 1 + n / 4, n), 1 + n / 5, n);
  }

  /** Whatever goes in, an n-bit number comes out. */
  lemma PermuteRange(x: nat, n: nat)
    ensures Permute(x, n) < Pow2(n)
  {
    RoundRange(Rounds(x, n, 19), n);
  }

  // ------------------------------------------------------------- injectivity

  lemma SameRemainder(u: nat, v: nat, n: nat)
    requires u % Pow2(n) == v % Pow2(n)
    ensures Divides2(u - v, n)
  {
    var m := Pow2(n);
    var q := u / m - v / m;
    assert u - v == q * m by {
      assert u == (u / m) * m + u % m;
      assert v == (v / m) * m + v % m;
    }
    MultipleDivides(q, n);
  }

  /** Multiplying by an odd number loses nothing modulo a power of two. */
  lemma OddMulInjective(f: nat, u: nat, v: nat, x: nat, y: nat, n: nat)
    requires f % 2 == 1 && x < Pow2(n) && y < Pow2(n) && u == f * x && v == f * y && u % Pow2(n) == v % Pow2(n)
    ensures x == y
  {
    SameRemainder(u, v, n);
    MulDifference(f, x, y);
    OddCancels(f, x - y, n);
    if x > y { SmallNotDivisible(x - y, n); }
    if y > x { DividesNegative(x - y, n); SmallNotDivisible(y - x, n); }
  }

  lemma AddShiftInjective(x: nat, y: nat, c: nat, n: nat)
    requires c > 0 && x < Pow2(n) && y < Pow2(n) && AddShift(x, c, n) == AddShift(y, c, n)
    ensures x == y
  {
    var f := 1 + Pow2(c);
    OddFactor(f, Pow2(c - 1));
    AddShiftInjectiveBy(f, x, y, n);
  }

  lemma AddShiftInjectiveBy(f: nat, x: nat, y: nat, n: nat)
    requires f % 2 == 1 && x < Pow2(n) && y < Pow2(n) && (f * x) % Pow2(n) == (f * y) % Pow2(n)
    ensures x == y
  {
    OddMulInjective(f, f * x, f * y, x, y, n);
  }

  lemma OddFactor(f: nat, half: nat)
    requires f == 1 + 2 * half
    ensures f % 2 == 1
  {
  }

  lemma MulDifference(f: nat, x: nat, y: nat)
    ensures f * x - f * y == f * (x - y)
  {
  }

  /** x ^ (x >> c) determines x, from the top bits down. */
  lemma {:induction false} XorShiftInjective(x: nat, y: nat, c: nat)
    requires c > 0 && XorShift(x, c) == XorShift(y, c)
    ensures x == y
    decreases x + y
  {
    if x > 0 || y > 0 {
      XorShr(x, Shr(x, c), c);
      XorShr(y, Shr(y, c), c);
      ShrShrinks(x, c);
      ShrShrinks(y, c);
      XorShiftInjective(Shr(x, c), Shr(y, c), c);
      XorInjective(x, y, Shr(x, c));
    }
  }

  lemma RoundInjective(x: nat, y: nat, n: nat)
    requires x < Pow2(n) && y < Pow2(n) && Round(x, n) == Round(y, n)
    ensures x == y
  {
    var x1, y1 := AddShift(x, 1 + n / 2, n), AddShift(y, 1 + n / 2, n);
    var x2, y2 := XorShift(x1, 1 + n / 3), XorShift(y1, 1 + n / 3);
    XorShiftRange(x1, 1 + n / 3, n);
    XorShiftRange(y1, 1 + n / 3, n);
    HalfRoundInjective(x2, y2, 1 + n / 4, 1 + n / 5, n);
    HalfRoundInjective(x, y, 1 + n / 2, 1 + n / 3, n);
  }

  lemma HalfRoundInjective(x: nat, y: nat, c: nat, d: nat, n: nat)
    requires c > 0 && d > 0 && x < Pow2(n) && y < Pow2(n)
    requires XorShift(AddShift(x, c, n), d) == XorShift(AddShift(y, c, n), d)
    ensures x == y
  {
    XorShiftInjective(AddShift(x, c, n), AddShift(y, c, n), d);
    AddShiftInjective(x, y, c, n);
  }

  lemma {:induction false} RoundsInjective(x: nat, y: nat, n: nat, i: nat)
    requires x < Pow2(n) && y < Pow2(n) && Rounds(x, n, i) == Rounds(y, n, i)
    ensures x == y
  {
    if i > 0 {
      RoundsRange(x, n, i - 1);
      RoundsRange(y, n, i - 1);
      RoundInjective(Rounds(x, n, i - 1), Rounds(y, n, i - 1), n);
      RoundsInjective(x, y, n, i - 1);
    }
  }

  lemma {:induction false} RoundsRange(x: nat, n: nat, i: nat)
    requires x < Pow2(n)
    ensures Rounds(x, n, i) < Pow2(n)
  {
    if i > 0 { RoundRange(Rounds(x, n, i - 1), n); }
  }

  lemma ZeroStaysZero(c: nat, n: nat)
    ensures AddShift(0, c, n) == 0 && XorShift(0, c) == 0
  {
    ShrShrinks(0, c);
    assert (1 + Pow2(c)) * 0 == 0;
  }

  lemma {:induction false} RoundsZero(n: nat, i: nat)
    ensures Rounds(0, n, i) == 0
  {
    if i > 0 {
      RoundsZero(n, i - 1);
      ZeroStaysZero(1 + n / 2, n);
      ZeroStaysZero(1 + n / 3, n);
      ZeroStaysZero(1 + n / 4, n);
      ZeroStaysZero(1 + n / 5, n);
    }
  }

  // --------------------------------------------------------------- bijection

  ghost function Image(f: nat -> nat, m: nat): set<nat> { set x: nat | x < m :: f(x) }

  lemma {:induction false} ImageSize(f: nat -> nat, m: nat)
    requires forall x: nat, y: nat :: x < m && y < m && f(x) == f(y) ==> x == y
    ensures |Image(f, m)| == m
  {
    if m > 0 {
      ImageSize(f, m - 1);
      assert Image(f, m) == Image(f, m - 1) + {f(m - 1)};
    }
  }

  lemma Preimage(f: nat -> nat, m: nat, z: nat) returns (x: nat)
    requires forall x: nat, y: nat :: x < m && y < m && f(x) == f(y) ==> x == y
    requires z < m && forall x: nat :: x < m ==> f(x) < m
    ensures x < m && f(x) == z
  {
    ImageSize(f, m);
    BelowSize(m);
    assert Image(f, m) <= Below(m);
    SubsetSameSize(Image(f, m), Below(m));
    assert z in Image(f, m);
    x :| x < m && f(x) == z;
  }

  lemma PermuteFixesZero(n: nat)
    ensures Permute(0, n) == 0
  {
    RoundsZero(n, 20);
  }

  /** permute maps 0..2^n-1 into itself without collisions ... */
  lemma PermuteInjective(x: nat, y: nat, n: nat)
    requires x < Pow2(n) && y < Pow2(n)
    ensures Permute(x, n) == Permute(y, n) <==> x == y
    ensures Permute(x, n) < Pow2(n)
  {
    if Permute(x, n) == Permute(y, n) { RoundsInjective(x, y, n, 20); }
    PermuteRange(x, n);
  }

  /** ... and onto itself. */
  lemma PermuteOnto(z: nat, n: nat) returns (x: nat)
    requires z < Pow2(n)
    ensures x < Pow2(n) && Permute(x, n) == z
  {
    var f := (y: nat) => Permute(y, n);
    forall u: nat, v: nat | u < Pow2(n) && v < Pow2(n) && f(u) == f(v) ensures u == v { PermuteInjective(u, v, n); }
    forall y: nat | y < Pow2(n) ensures f(y) < Pow2(n) { PermuteRange(y, n); }
    x := Preimage(f, Pow2(n), z);
  }
}
