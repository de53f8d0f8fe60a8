/** Powers of two and exclusive-or on natural numbers.

    The sources use unsigned machine words.  Here a word is a natural number:
    a left shift by n multiplies by Pow2(n), a right shift divides by it, and
    masking with Pow2(n) - 1 takes the remainder. */
module Bits {

  function Pow2(n: nat): (p: nat)
    ensures p > 0
  {
    if n == 0 then 1 else 2 * Pow2(n - 1)
  }

  lemma {:induction false} Pow2Add(m: nat, n: nat)
    ensures Pow2(m + n) == Pow2(m) * Pow2(n)
  {
    if m > 0 {
      Pow2Add(m - 1, n);
      assert Pow2(m + n) == 2 * Pow2(m - 1 + n);
      assert Pow2(m) * Pow2(n) == 2 * (Pow2(m - 1) * Pow2(n));
    }
  }

  lemma {:induction false} Pow2Mono(m: nat, n: nat)
    requires m <= n
    ensures Pow2(m) <= Pow2(n)
    ensures m < n ==> 2 * Pow2(m) <= Pow2(n)
  {
    if m < n { Pow2Mono(m, n - 1); }
  }

  predicate IsPow2(n: nat) { exists k: nat :: k < n && n == Pow2(k) }

  lemma {:induction false} Pow2Grows(k: nat)
    ensures k < Pow2(k)
  {
    if k > 0 { Pow2Grows(k - 1); }
  }

  lemma IsPow2Intro(k: nat)
    ensures IsPow2(Pow2(k))
  {
    Pow2Grows(k);
  }

  /** The C operator ^ on words of any width. */
  function Xor(x: nat, y: nat): (z: nat)
  {
    if x == 0 && y == 0 then 0
    else 2 * Xor(x / 2, y / 2) + (x + y) % 2
  }

  lemma XorHalf(x: nat, y: nat)
    ensures Xor(x, y) / 2 == Xor(x / 2, y / 2)
    ensures Xor(x, y) % 2 == (x + y) % 2
  {
  }

  lemma {:induction false} XorBound(x: nat, y: nat, k: nat)
    requires x < Pow2(k) && y < Pow2(k)
    ensures Xor(x, y) < Pow2(k)
    decreases k
  {
    if k > 0 { XorBound(x / 2, y / 2, k - 1); }
  }

  lemma XorStep(x: nat, y: nat, a: nat, b: nat, i: nat, j: nat)
    requires i < 2 && j < 2 && x == 2 * a + i && y == 2 * b + j
    ensures Xor(x, y) == 2 * Xor(a, b) + if i == j then 0 else 1
  {
    assert x / 2 == a && y / 2 == b;
    assert (x + y) % 2 == if i == j then 0 else 1;
  }

  /** x ^ y ^ y is x: exclusive-or with a fixed word can be undone. */
  lemma {:induction false} XorUndo(x: nat, y: nat)
    ensures Xor(Xor(x, y), y) == x
    decreases x + y
  {
    if x > 0 || y > 0 {
      XorUndo(x / 2, y / 2);
      XorUndoStep(x, y, x / 2, y / 2, x % 2, y % 2);
    }
  }

  lemma XorUndoStep(x: nat, y: nat, a: nat, b: nat, i: nat, j: nat)
    requires i < 2 && j < 2 && x == 2 * a + i && y == 2 * b + j && Xor(Xor(a, b), b) == a
    ensures Xor(Xor(x, y), y) == x
  {
    XorStep(x, y, a, b, i, j);
    XorStep(Xor(x, y), y, Xor(a, b), b, if i == j then 0 else 1, j);
  }

  lemma {:induction false} XorComm(x: nat, y: nat)
    ensures Xor(x, y) == Xor(y, x)
    decreases x + y
  {
    if x > 0 || y > 0 { XorComm(x / 2, y / 2); }
  }

  lemma XorDouble(x: nat, y: nat, a: nat, b: nat, j: nat)
    requires j < 2 && x == 2 * a && y == 2 * b + j
    ensures Xor(x, y) == 2 * Xor(a, b) + j
  {
    XorStep(x, y, a, b, 0, j);
  }

  /** t << k */
  function Scaled(t: nat, k: nat): nat { if k == 0 then t else 2 * Scaled(t, k - 1) }

  lemma {:induction false} ScaledIs(t: nat, k: nat)
    ensures Scaled(t, k) == t * Pow2(k)
  {
    if k > 0 {
      ScaledIs(t, k - 1);
      MulTwice(t, Pow2(k - 1), Pow2(k));
    }
  }

  /** A word below 2^k leaves the bits from k on alone. */
  lemma {:induction false} XorHigh(x: nat, t: nat, r: nat, k: nat)
    requires x < Pow2(k) && r < Pow2(k)
    ensures Xor(x, Scaled(t, k) + r) == Scaled(t, k) + Xor(x, r)
    decreases k
  {
    if k == 0 {
      XorZero(t);
    } else {
      XorHigh(x / 2, t, r / 2, k - 1);
      XorHighStep(x, r, x / 2, r / 2, x % 2, r % 2, Scaled(t, k - 1));
    }
  }

  lemma MulTwice(t: nat, p: nat, q: nat)
    requires q == 2 * p
    ensures t * q == 2 * (t * p)
  {
  }

  lemma XorHighStep(x: nat, r: nat, x': nat, r': nat, i: nat, j: nat, h: nat)
    requires i < 2 && j < 2 && x == 2 * x' + i && r == 2 * r' + j && Xor(x', h + r') == h + Xor(x', r')
    ensures Xor(x, 2 * h + r) == 2 * h + Xor(x, r)
  {
    XorStep(x, r, x', r', i, j);
    XorStep(x, 2 * h + r, x', h + r', i, j);
  }

  lemma {:induction false} XorZero(y: nat)
    ensures Xor(0, y) == y
  {
    if y > 0 { XorZero(y / 2); }
  }

  lemma XorInjective(x1: nat, x2: nat, y: nat)
    requires Xor(x1, y) == Xor(x2, y)
    ensures x1 == x2
  {
    XorUndo(x1, y);
    XorUndo(x2, y);
  }

  /** The C operator >> on unsigned words: drop the n low bits. */
  function Shr(x: nat, n: nat): (r: nat)
    decreases n
  {
    if n == 0 then x else Shr(x / 2, n - 1)
  }

  lemma {:induction false} ShrBound(x: nat, n: nat, k: nat)
    requires x < Pow2(n + k)
    ensures Shr(x, n) < Pow2(k)
    decreases n
  {
    if n > 0 { ShrBound(x / 2, n - 1, k); }
  }

  lemma {:induction false} ShrShrinks(x: nat, n: nat)
    ensures Shr(x, n) <= x
    ensures x > 0 && n > 0 ==> Shr(x, n) < x
    decreases n
  {
    if n > 0 { ShrShrinks(x / 2, n - 1); }
  }

  /** Exclusive-or commutes with a right shift. */
  lemma {:induction false} XorShr(x: nat, y: nat, n: nat)
    ensures Shr(Xor(x, y), n) == Xor(Shr(x, n), Shr(y, n))
    decreases n
  {
    if n > 0 {
      XorHalf(x, y);
      XorShr(x / 2, y / 2, n - 1);
    }
  }

  lemma MulNat(m: nat, n: nat)
    ensures 0 <= m * n
  {
  }

  lemma MulGap(d: nat, m: nat, n: nat)
    requires m < n
    ensures d * n >= d * m + d
  {
    var k := n - m - 1;
    calc {
      d * n;
      d * (m + (k + 1));
      d * m + d * (k + 1);
      d * m + (d * k + d);
    }
    MulNat(d, k);
  }

  /** A quotient and remainder that fit are the quotient and the remainder. */
  lemma DivUnique(x: nat, d: nat, q: nat, r: nat)
    requires d > 0 && r < d && x == d * q + r
    ensures x / d == q && x % d == r
  {
    var q1, r1 := x / d, x % d;
    if q1 < q { MulGap(d, q1, q); }
    if q < q1 { MulGap(d, q, q1); }
  }
}
