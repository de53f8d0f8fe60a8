/** The power-of-two arithmetic that sizes and probes a DenseMap. */
module PowerOfTwo {
  import opened Bits

  const WORD := 0x1_0000_0000

  /** The number of bits needed to write n: 32 - CountLeadingZeros_32(n). */
  function BitLength(n: nat): nat {
    if n == 0 then 0 else 1 + BitLength(n / 2)
  }

  lemma {:induction false} BitLengthTight(n: nat)
    ensures n < Pow2(BitLength(n))
    ensures n > 0 ==> Pow2(BitLength(n)) <= 2 * n
  {
    if n > 0 { BitLengthTight(n / 2); }
  }

  lemma {:induction false} BitLengthBound(n: nat, k: nat)
    ensures n < Pow2(k) <==> BitLength(n) <= k
    decreases n
  {
    if n > 0 && k > 0 { BitLengthBound(n / 2, k - 1); }
  }

  lemma {:induction false} BitLengthOnes(k: nat)
    ensures BitLength(Pow2(k) - 1) == k
  {
    if k > 0 {
      BitLengthOnes(k - 1);
      assert (Pow2(k) - 1) / 2 == Pow2(k - 1) - 1;
    }
  }

  /** The C operator | on words. */
  function Or(x: nat, y: nat): nat {
    if x == 0 && y == 0 then 0
    else 2 * Or(x / 2, y / 2) + (if x % 2 == 1 || y % 2 == 1 then 1 else 0)
  }

  function Fold(x: nat, n: nat): nat { Or(x, Shr(x, n)) }

  /** The five or-and-shift steps of NextPowerOf2. */
  function Smear(x: nat): nat {
    Fold(Fold(Fold(Fold(Fold(x, 1), 2), 4), 8), 16)
  }

  /** NextPowerOf2 on 32-bit words; the increment wraps. */
  function NextPowerOf2(x: nat): nat
    requires x < WORD
  {
    (Smear(x) + 1) % WORD
  }

  lemma {:induction false} ShrHalf(x: nat, n: nat)
    ensures Shr(x, n) / 2 == Shr(x / 2, n)
    decreases n
  {
    if n > 0 { ShrHalf(x / 2, n - 1); }
  }

  lemma FoldHalf(x: nat, n: nat)
    ensures Fold(x, n) / 2 == Fold(x / 2, n)
    ensures Fold(x, n) % 2 == 1 <==> x % 2 == 1 || Shr(x, n) % 2 == 1
  {
    ShrHalf(x, n);
  }

  /** Whether one of the n low bits of x is set. */
  predicate AnyBit(x: nat, n: nat) {
    n > 0 && (x % 2 == 1 || AnyBit(x / 2, n - 1))
  }

  lemma {:induction false} AnyBitSplit(x: nat, m: nat, n: nat)
    ensures AnyBit(x, m + n) <==> AnyBit(x, m) || AnyBit(Shr(x, m), n)
    decreases m
  {
    if m > 0 { AnyBitSplit(x / 2, m - 1, n); }
  }

  /** y is x with each bit replaced by the or of the n bits from there up. */
  ghost predicate Smeared(x: nat, y: nat, n: nat)
    decreases x + y
  {
    (y % 2 == 1 <==> AnyBit(x, n)) && (x > 0 || y > 0 ==> Smeared(x / 2, y / 2, n))
  }

  lemma {:induction false} SmearedShr(x: nat, y: nat, n: nat, m: nat)
    requires Smeared(x, y, n)
    ensures Smeared(Shr(x, m), Shr(y, m), n)
    decreases m
  {
    if m > 0 { SmearedShr(x / 2, y / 2, n, m - 1); }
  }

  lemma {:induction false} FoldSmears(x: nat, y: nat, n: nat)
    requires n > 0 && Smeared(x, y, n)
    ensures Smeared(x, Fold(y, n), 2 * n)
    decreases x + y
  {
    FoldHalf(y, n);
    SmearedShr(x, y, n, n);
    AnyBitSplit(x, n, n);
    if x > 0 || y > 0 { FoldSmears(x / 2, y / 2, n); }
  }

  lemma {:induction false} SmearedSelf(x: nat)
    ensures Smeared(x, x, 1)
  {
    if x > 0 { SmearedSelf(x / 2); }
  }

  lemma {:induction false} SmallHasBit(x: nat, n: nat)
    requires 0 < x < Pow2(n)
    ensures AnyBit(x, n)
    decreases n
  {
    if x % 2 == 0 { SmallHasBit(x / 2, n - 1); }
  }

  lemma {:induction false} SmearedIsOnes(x: nat, y: nat, n: nat)
    requires Smeared(x, y, n) && x < Pow2(n)
    ensures y + 1 == Pow2(BitLength(x))
    decreases x + y
  {
    if x > 0 {
      SmallHasBit(x, n);
      SmearedIsOnes(x / 2, y / 2, n);
    } else if y > 0 {
      NoBits(n);
      SmearedIsOnes(0, y / 2, n);
    } else {
      NoBits(n);
    }
  }

  lemma {:induction false} NoBits(n: nat)
    ensures !AnyBit(0, n)
  {
    if n > 0 { NoBits(n - 1); }
  }

  lemma WordIsPow2()
    ensures Pow2(32) == WORD
  {
    Pow2Add(16, 16);
    assert Pow2(16) == 0x10000 by {
      Pow2Add(8, 8);
      assert Pow2(8) == 256 by { Pow2Add(4, 4); assert Pow2(4) == 16; }
    }
  }

  lemma SmearIsOnes(x: nat)
    requires x < WORD
    ensures Smear(x) + 1 == Pow2(BitLength(x))
  {
    SmearedSelf(x);
    FoldSmears(x, x, 1);
    FoldSmears(x, Fold(x, 1), 2);
    FoldSmears(x, Fold(Fold(x, 1), 2), 4);
    FoldSmears(x, Fold(Fold(Fold(x, 1), 2), 4), 8);
    FoldSmears(x, Fold(Fold(Fold(Fold(x, 1), 2), 4), 8), 16);
    WordIsPow2();
    SmearedIsOnes(x, Smear(x), 32);
  }

  lemma OnesPlusOne(x: nat, p: nat)
    requires x < WORD && p == Pow2(BitLength(x))
    ensures p == WORD <==> x >= WORD / 2
    ensures p != WORD ==> IsPow2(p) && x < p < WORD && p <= 2 * x + 1
    ensures p % WORD == (if p == WORD then 0 else p)
  {
    WordIsPow2();
    BitLengthTight(x);
    BitLengthBound(x, 31);
    BitLengthBound(x, 32);
    IsPow2Intro(BitLength(x));
    assert Pow2(32) == 2 * Pow2(31);
    if BitLength(x) <= 31 { Pow2Mono(BitLength(x), 31); }
  }

  /** NextPowerOf2 returns the least power of two strictly above its argument,
      and zero exactly when that does not fit in 32 bits. */
  lemma NextPowerOf2Least(x: nat)
    requires x < WORD
    ensures NextPowerOf2(x) == 0 <==> x >= WORD / 2
    ensures x < WORD / 2 ==>
              && IsPow2(NextPowerOf2(x))
              && x < NextPowerOf2(x) <= 2 * x + 1
              && NextPowerOf2(x) == Pow2(BitLength(x))
  {
    SmearIsOnes(x);
    OnesPlusOne(x, Smear(x) + 1);
  }
}
