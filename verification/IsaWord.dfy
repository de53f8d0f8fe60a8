/** The isa word of a non-pointer-isa object, as bits.

    A layout puts extra_rc in the top rcBits bits of the word and
    has_sidetable_rc right below it; everything else is `low`.  The lemmas say
    that the machine additions and subtractions of the retain and release
    loops act on extra_rc alone and carry exactly when extra_rc overflows. */
module IsaWord {
  import opened Bits

  /** rcShift is the position of extra_rc, rcBits its width. */
  datatype Layout = Layout(rcShift: nat, rcBits: nat)

  const X86_64 := Layout(56, 8)
  const ARM64 := Layout(45, 19)
  const ARM64E := Layout(56, 8)
  const ARMV7K := Layout(25, 7)

  predicate ValidLayout(l: Layout) { l.rcShift >= 1 && l.rcBits >= 2 }

  function RcOne(l: Layout): nat { Pow2(l.rcShift) }

  function RcHalf(l: Layout): nat requires ValidLayout(l) { Pow2(l.rcBits - 1) }

  function WordLimit(l: Layout): nat { Pow2(l.rcShift + l.rcBits) }

  /** The word with the given bit fields. */
  function Encode(l: Layout, extra: nat, side: bool, low: nat): (w: nat)
    requires ValidLayout(l)
  {
    extra * RcOne(l) + (if side then Pow2(l.rcShift - 1) else 0) + low
  }

  predicate Fits(l: Layout, extra: nat, low: nat)
    requires ValidLayout(l)
  {
    extra < Pow2(l.rcBits) && low < Pow2(l.rcShift - 1)
  }

  /** addc on two words: the sum, wrapped, and the carry out. */
  function Addc(l: Layout, lhs: nat, rhs: nat): (int, bool)
  {
    var carry := lhs + rhs >= WordLimit(l);
    (if carry then lhs + rhs - WordLimit(l) else lhs + rhs, carry)
  }

  /** subc on two words: the difference, wrapped, and the borrow out. */
  function Subc(l: Layout, lhs: nat, rhs: nat): (int, bool)
  {
    var borrow := lhs < rhs;
    (if borrow then lhs + WordLimit(l) - rhs else lhs - rhs, borrow)
  }

  lemma BelowLimit(l: Layout, extra: nat, rest: nat)
    requires rest < RcOne(l)
    ensures extra * RcOne(l) + rest < WordLimit(l) <==> extra < Pow2(l.rcBits)
  {
    Pow2Add(l.rcShift, l.rcBits);
    var one, range := RcOne(l), Pow2(l.rcBits);
    if extra < range {
      MulGap(one, extra, range);
    } else if extra > range {
      MulGap(one, range, extra);
    }
  }

  /** In every layout RC_HALF is half of the range of extra_rc, and at least 2. */
  lemma HalfOfRange(l: Layout)
    requires l in {X86_64, ARM64, ARM64E, ARMV7K}
    ensures ValidLayout(l) && Pow2(l.rcBits) == 2 * RcHalf(l) && RcHalf(l) >= 2
  {
  }

  /** Adding n * RC_ONE to the word adds n to extra_rc and touches nothing
      else; the carry out says exactly that extra_rc would overflow. */
  lemma AddcAddsToExtraRc(l: Layout, extra: nat, side: bool, low: nat, n: nat)
    requires ValidLayout(l) && Fits(l, extra, low)
    ensures var (w, carry) := Addc(l, Encode(l, extra, side, low), n * RcOne(l));
            && (carry <==> extra + n >= Pow2(l.rcBits))
            && (!carry ==> w == Encode(l, extra + n, side, low))
  {
    var rest := (if side then Pow2(l.rcShift - 1) else 0) + low;
    BelowLimit(l, extra + n, rest);
    var one := RcOne(l);
    assert extra * one + n * one == (extra + n) * one;
  }

  /** Subtracting RC_ONE borrows exactly when extra_rc is zero. */
  lemma SubcTakesFromExtraRc(l: Layout, extra: nat, side: bool, low: nat)
    requires ValidLayout(l) && Fits(l, extra, low)
    ensures var (w, borrow) := Subc(l, Encode(l, extra, side, low), RcOne(l));
            && (borrow <==> extra == 0)
            && (!borrow ==> w == Encode(l, extra - 1, side, low))
  {
    var one := RcOne(l);
    var rest := (if side then Pow2(l.rcShift - 1) else 0) + low;
    BelowLimit(l, extra, rest);
    if extra > 0 {
      MulNat(extra - 1, one);
      assert extra * one == (extra - 1) * one + one;
    }
  }

  /** Two words are equal only if all their fields are, so comparing words in
      a compare-and-swap compares fields. */
  lemma EncodeInjective(l: Layout, extra1: nat, side1: bool, low1: nat, extra2: nat, side2: bool, low2: nat)
    requires ValidLayout(l) && Fits(l, extra1, low1) && Fits(l, extra2, low2)
    requires Encode(l, extra1, side1, low1) == Encode(l, extra2, side2, low2)
    ensures extra1 == extra2 && side1 == side2 && low1 == low2
  {
    var one := RcOne(l);
    if extra1 < extra2 {
      MulGap(one, extra1, extra2);
    } else if extra2 < extra1 {
      MulGap(one, extra2, extra1);
    }
  }
}
