/** Divisibility by powers of two. */
module Divisibility {
  import opened Bits

  /** 2 to the k divides x. */
  predicate Divides2(x: int, k: nat)
    decreases k
  {
    k == 0 || (x % 2 == 0 && Divides2(x / 2, k - 1))
  }

  lemma {:induction false} MultipleDivides(q: int, k: nat)
    ensures Divides2(q * Pow2(k), k)
  {
    if k > 0 {
      var p := Pow2(k - 1);
      assert q * Pow2(k) == 2 * (q * p);
      MultipleDivides(q, k - 1);
    }
  }

  /** An odd factor cannot absorb a power of two. */
  lemma {:induction false} OddCancels(odd: int, x: int, k: nat)
    requires odd % 2 == 1 && Divides2(odd * x, k)
    ensures Divides2(x, k)
    decreases k
  {
    if k > 0 {
      OddTimes(odd, x);
      var y := x / 2;
      assert odd * x == 2 * (odd * y);
      OddCancels(odd, y, k - 1);
    }
  }

  lemma OddTimes(odd: int, x: int)
    requires odd % 2 == 1
    ensures (odd * x) % 2 == x % 2
  {
    var m := odd / 2;
    assert odd * x == 2 * (m * x) + x;
  }

  lemma {:induction false} SmallNotDivisible(x: int, k: nat)
    requires 0 < x < Pow2(k)
    ensures !Divides2(x, k)
  {
    if x % 2 == 0 { SmallNotDivisible(x / 2, k - 1); }
  }

  lemma {:induction false} DividesNegative(x: int, k: nat)
    requires Divides2(x, k)
    ensures Divides2(-x, k)
    decreases k
  {
    if k > 0 { DividesNegative(x / 2, k - 1); assert (-x) / 2 == -(x / 2); }
  }
}
