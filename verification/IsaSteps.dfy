/** The retain and release loops on the isa word itself: addc, subc and
    comparisons of whole words.  They are the steps of the field-level machine,
    in every run. */
module IsaSteps {
  import opened Bits
  import opened IsaWord
  import opened RetainRelease
  import opened RetainReleaseTheorems

  /** The bits below has_sidetable_rc, packed in some fixed order. */
  function Low(i: Isa): nat { 4 * i.cls + (if i.weaklyReferenced then 2 else 0) + (if i.hasAssoc then 1 else 0) }

  function WordOf(l: Layout, i: Isa): nat
    requires ValidLayout(l)
  {
    Encode(l, i.extraRc, i.hasSidetableRc, Low(i))
  }

  predicate WordFits(l: Layout, i: Isa)
    requires ValidLayout(l)
  {
    IsaWord.Fits(l, i.extraRc, Low(i))
  }

  function SideBit(l: Layout): nat
    requires ValidLayout(l)
  {
    Pow2(l.rcShift - 1)
  }

  /** The n low bits of a word. */
  function LowBits(w: nat, n: nat): nat
    decreases n
  {
    if n == 0 then 0 else 2 * LowBits(w / 2, n - 1) + w % 2
  }

  lemma {:induction false} SplitWord(t: nat, r: nat, n: nat)
    requires r < Pow2(n)
    ensures Shr(Scaled(t, n) + r, n) == t && LowBits(Scaled(t, n) + r, n) == r
    decreases n
  {
    if n > 0 {
      SplitWord(t, r / 2, n - 1);
      assert (Scaled(t, n) + r) / 2 == Scaled(t, n - 1) + r / 2 && (Scaled(t, n) + r) % 2 == r % 2;
    }
  }

  lemma {:induction false} ScaledAdds(a: nat, b: nat, n: nat)
    ensures Scaled(a + b, n) == Scaled(a, n) + Scaled(b, n) && Scaled(2 * a, n) == Scaled(a, n + 1)
  {
    if n > 0 { ScaledAdds(a, b, n - 1); }
  }

  function LowOf(l: Layout, w: nat): nat
    requires ValidLayout(l)
  {
    LowBits(w, l.rcShift - 1)
  }

  /** Reading the fields back: extra_rc, has_sidetable_rc, and the rest. */
  function FieldsOf(l: Layout, w: nat): Isa
    requires ValidLayout(l)
  {
    var high, low := Shr(w, l.rcShift - 1), LowOf(l, w);
    Isa(high / 2, high % 2 == 1, low % 2 == 1, low / 2 % 2 == 1, low / 4)
  }

  lemma FieldsBack(l: Layout, i: Isa)
    requires ValidLayout(l) && WordFits(l, i)
    ensures FieldsOf(l, WordOf(l, i)) == i && LowOf(l, WordOf(l, i)) == Low(i)
  {
    var n, s := l.rcShift - 1, if i.hasSidetableRc then 1 else 0;
    WordSplit(l, i, n, s);
    SplitWord(2 * i.extraRc + s, Low(i), n);
    LowBack(i);
  }

  lemma WordSplit(l: Layout, i: Isa, n: nat, s: nat)
    requires ValidLayout(l) && n == l.rcShift - 1 && s == if i.hasSidetableRc then 1 else 0
    ensures WordOf(l, i) == Scaled(2 * i.extraRc + s, n) + Low(i)
  {
    ScaledAdds(2 * i.extraRc, s, n);
    ScaledAdds(i.extraRc, 0, n);
    ScaledIs(i.extraRc, n + 1);
    ScaledIs(s, n);
  }

  lemma LowBack(i: Isa)
    ensures Low(i) % 2 == (if i.hasAssoc then 1 else 0) && Low(i) / 2 % 2 == (if i.weaklyReferenced then 1 else 0)
            && Low(i) / 4 == i.cls
  {
  }

  /** isDeallocating on the word: no bit from has_sidetable_rc up. */
  predicate WordDeallocating(l: Layout, w: nat)
    requires ValidLayout(l)
  {
    w < SideBit(l)
  }

  lemma DeallocatingWord(l: Layout, i: Isa)
    requires ValidLayout(l) && WordFits(l, i)
    ensures WordDeallocating(l, WordOf(l, i)) <==> IsDeallocating(i)
  {
    assert RcOne(l) == 2 * SideBit(l);
    if i.extraRc > 0 { MulGap(RcOne(l), 0, i.extraRc); }
  }

  lemma SameWord(l: Layout, i: Isa, j: Isa)
    requires ValidLayout(l) && WordFits(l, i) && WordFits(l, j)
    ensures WordOf(l, i) == WordOf(l, j) <==> i == j
  {
    if WordOf(l, i) == WordOf(l, j) {
      EncodeInjective(l, i.extraRc, i.hasSidetableRc, Low(i), j.extraRc, j.hasSidetableRc, Low(j));
      LowBack(i);
      LowBack(j);
    }
  }

  // -------------------------------------------------------------- the loops

  /** One pass of rootRetain's loop on words. */
  function RetainOnWord(l: Layout, s: State, t: nat, try: bool, full: bool, seen: Isa, locked: bool,
                        spurious: bool): State
    requires ValidLayout(l) && t < |s.threads|
  {
    var w := WordOf(l, seen);
    var stored := WordOf(l, s.isa) == w && !spurious;
    var (sum, carry) := Addc(l, w, RcOne(l));
    if WordDeallocating(l, w) then
      var s1 := if locked then s.(lock := Free) else s;
      if try then At(s1, t, TryDone(TryFailed)) else Return(s1, t, RetainedDead)
    else if !carry then
      if stored then
        var s1 := s.(isa := FieldsOf(l, sum));
        if try then At(s1, t, TryDone(Retained)) else Leave(s1, t, locked, Retained)
      else
        At(s, t, RetainLoop(try, full, s.isa, locked))
    else if !full then
      At(s, t, RetainLoop(try, true, s.isa, false))
    else if !try && !locked then
      Locked(s, t, RetainLoop(try, full, seen, true))
    else if stored then
      At(s.(isa := FieldsOf(l, Encode(l, RcHalf(l), true, LowOf(l, w)))), t, RetainAdd(try))
    else
      At(s, t, RetainLoop(try, full, s.isa, true))
  }

  /** One pass of rootRelease's loop on words. */
  function ReleaseOnWord(l: Layout, s: State, t: nat, full: bool, seen: Isa, locked: bool, spurious: bool): State
    requires ValidLayout(l) && t < |s.threads|
  {
    var w := WordOf(l, seen);
    var stored := WordOf(l, s.isa) == w && !spurious;
    var (less, carry) := Subc(l, w, RcOne(l));
    if WordDeallocating(l, w) then
      Return(if locked then s.(lock := Free) else s, t, ReleasedDead)
    else if !carry then
      if stored then
        Leave(s.(isa := FieldsOf(l, less)), t, locked, if WordDeallocating(l, less) then ReportedDealloc else Released)
      else
        At(s, t, ReleaseLoop(full, s.isa, locked))
    else if !full then
      At(s, t, ReleaseLoop(true, s.isa, false))
    else if !locked then
      Locked(s, t, ReleaseReload)
    else
      var b := Min(RcHalf(l), s.side);
      var s1 := s.(side := s.side - b);
      At(s1, t, if b > 0 then BorrowFirst(seen, b, s1.side == 0) else EmptyAfterAll)
  }

  function BorrowFirstOnWord(l: Layout, s: State, t: nat, seen: Isa, b: Pos, emptied: bool, spurious: bool): State
    requires ValidLayout(l) && t < |s.threads|
  {
    var w := WordOf(l, seen);
    if WordOf(l, s.isa) == w && !spurious then
      At(s.(isa := FieldsOf(l, Encode(l, b - 1, !emptied, LowOf(l, w)))), t, BorrowStored(emptied, false))
    else
      At(s, t, BorrowSecond(s.isa, b, emptied))
  }

  /** The second try adds to the word as it is and then sets the flag. */
  function BorrowSecondOnWord(l: Layout, s: State, t: nat, seen: Isa, b: Pos, emptied: bool, spurious: bool): State
    requires ValidLayout(l) && t < |s.threads|
  {
    var w := WordOf(l, seen);
    var (sum, overflow) := Addc(l, w, (b - 1) * RcOne(l));
    if !overflow && WordOf(l, s.isa) == w && !spurious then
      var new' := Encode(l, FieldsOf(l, sum).extraRc, !emptied, LowOf(l, sum));
      At(s.(isa := FieldsOf(l, new')), t, BorrowStored(emptied, WordDeallocating(l, new')))
    else
      At(s, t, BorrowPutBack(b))
  }

  /** setHasAssociatedObjects and setWeaklyReferenced_nolock: set a bit of the
      word that is not set yet. */
  function AssocOnWord(l: Layout, s: State, t: nat, seen: Isa, spurious: bool): State
    requires ValidLayout(l) && t < |s.threads|
  {
    var w := WordOf(l, seen);
    if LowOf(l, w) % 2 == 1 then At(s, t, Idle)
    else if WordOf(l, s.isa) == w && !spurious then At(s.(isa := FieldsOf(l, w + 1)), t, Idle)
    else At(s, t, AssocLoop(s.isa))
  }

  function WeakOnWord(l: Layout, s: State, t: nat, seen: Isa, spurious: bool): State
    requires ValidLayout(l) && t < |s.threads|
  {
    var w := WordOf(l, seen);
    if LowOf(l, w) / 2 % 2 == 1 then At(s, t, CallerLocked)
    else if WordOf(l, s.isa) == w && !spurious then At(s.(isa := FieldsOf(l, w + 2)), t, CallerLocked)
    else At(s, t, WeakLoop(s.isa))
  }

  /** The machine with those passes on words. */
  function GoOnWord(l: Layout, s: State, t: nat, spurious: bool): State
    requires ValidLayout(l) && t < |s.threads|
  {
    match s.threads[t]
    case RetainLoop(try, full, seen, locked) => RetainOnWord(l, s, t, try, full, seen, locked, spurious)
    case ReleaseLoop(full, seen, locked) => ReleaseOnWord(l, s, t, full, seen, locked, spurious)
    case BorrowFirst(seen, b, emptied) => BorrowFirstOnWord(l, s, t, seen, b, emptied, spurious)
    case BorrowSecond(seen, b, emptied) => BorrowSecondOnWord(l, s, t, seen, b, emptied, spurious)
    case AssocLoop(seen) => AssocOnWord(l, s, t, seen, spurious)
    case WeakLoop(seen) => WeakOnWord(l, s, t, seen, spurious)
    case _ => Go1(RcHalf(l), s, t, spurious)
  }

  function StepOnWord(l: Layout, s: State, m: Move): State
    requires ValidLayout(l)
  {
    if !s.trapped && m.thread < |s.threads| && m.choice.Go? then GoOnWord(l, s, m.thread, m.choice.spurious)
    else Step(RcHalf(l), s, m)
  }

  function RunOnWord(l: Layout, s: State, moves: seq<Move>): State
    requires ValidLayout(l)
  {
    if moves == [] then s else StepOnWord(l, RunOnWord(l, s, moves[..|moves| - 1]), moves[|moves| - 1])
  }

  // ------------------------------------------------------------- refinement

  /** Field updates on words. */
  lemma WithFields(l: Layout, i: Isa, extra: nat, side: bool)
    requires ValidLayout(l) && WordFits(l, i) && extra < Pow2(l.rcBits)
    ensures FieldsOf(l, Encode(l, extra, side, LowOf(l, WordOf(l, i)))) == i.(extraRc := extra, hasSidetableRc := side)
  {
    FieldsBack(l, i);
    FieldsBack(l, i.(extraRc := extra, hasSidetableRc := side));
  }

  lemma AddWord(l: Layout, i: Isa, n: nat)
    requires ValidLayout(l) && WordFits(l, i)
    ensures var (sum, carry) := Addc(l, WordOf(l, i), n * RcOne(l));
            && (carry <==> i.extraRc + n >= 2 * RcHalf(l))
            && (!carry ==>
                sum == WordOf(l, i.(extraRc := i.extraRc + n)) && FieldsOf(l, sum) == i.(extraRc := i.extraRc + n))
  {
    AddcAddsToExtraRc(l, i.extraRc, i.hasSidetableRc, Low(i), n);
    if i.extraRc + n < Pow2(l.rcBits) { FieldsBack(l, i.(extraRc := i.extraRc + n)); }
  }

  lemma SubWord(l: Layout, i: Isa)
    requires ValidLayout(l) && WordFits(l, i)
    ensures var (less, borrow) := Subc(l, WordOf(l, i), RcOne(l));
            && (borrow <==> i.extraRc == 0)
            && (!borrow ==>
                less == WordOf(l, i.(extraRc := i.extraRc - 1)) && FieldsOf(l, less) == i.(extraRc := i.extraRc - 1))
  {
    SubcTakesFromExtraRc(l, i.extraRc, i.hasSidetableRc, Low(i));
    if i.extraRc > 0 { FieldsBack(l, i.(extraRc := i.extraRc - 1)); }
  }

  lemma RetainSame(l: Layout, s: State, t: nat, try: bool, full: bool, seen: Isa, locked: bool, spurious: bool)
    requires ValidLayout(l) && t < |s.threads| && WordFits(l, s.isa) && WordFits(l, seen)
    ensures RetainOnWord(l, s, t, try, full, seen, locked, spurious)
            == StepRetainLoop(RcHalf(l), s, t, try, full, seen, locked, spurious)
  {
    SameWord(l, s.isa, seen);
    DeallocatingWord(l, seen);
    AddWord(l, seen, 1);
    Pow2Mono(l.rcBits - 1, l.rcBits);
    WithFields(l, seen, RcHalf(l), true);
  }

  lemma ReleaseSame(l: Layout, s: State, t: nat, full: bool, seen: Isa, locked: bool, spurious: bool)
    requires ValidLayout(l) && t < |s.threads| && WordFits(l, s.isa) && WordFits(l, seen)
    ensures ReleaseOnWord(l, s, t, full, seen, locked, spurious)
            == StepReleaseLoop(RcHalf(l), s, t, full, seen, locked, spurious)
  {
    SameWord(l, s.isa, seen);
    DeallocatingWord(l, seen);
    SubWord(l, seen);
    if seen.extraRc > 0 { DeallocatingWord(l, seen.(extraRc := seen.extraRc - 1)); }
  }

  lemma BorrowFirstSame(l: Layout, s: State, t: nat, seen: Isa, b: Pos, emptied: bool, spurious: bool)
    requires ValidLayout(l) && t < |s.threads| && WordFits(l, s.isa) && WordFits(l, seen) && b == RcHalf(l)
    ensures BorrowFirstOnWord(l, s, t, seen, b, emptied, spurious) == StepBorrowFirst(s, t, seen, b, emptied, spurious)
  {
    SameWord(l, s.isa, seen);
    Pow2Mono(l.rcBits - 1, l.rcBits);
    WithFields(l, seen, b - 1, !emptied);
  }

  lemma BorrowSecondSame(l: Layout, s: State, t: nat, seen: Isa, b: Pos, emptied: bool, spurious: bool)
    requires ValidLayout(l) && t < |s.threads| && WordFits(l, s.isa) && WordFits(l, seen) && b == RcHalf(l)
    ensures BorrowSecondOnWord(l, s, t, seen, b, emptied, spurious)
            == StepBorrowSecond(RcHalf(l), s, t, seen, b, emptied, spurious)
  {
    SameWord(l, s.isa, seen);
    BorrowSum(l, seen, b - 1, !emptied);
  }

  /** Adding to a word and then setting has_sidetable_rc in it. */
  lemma BorrowSum(l: Layout, i: Isa, n: nat, side: bool)
    requires ValidLayout(l) && WordFits(l, i)
    ensures var (sum, overflow) := Addc(l, WordOf(l, i), n * RcOne(l));
            && (overflow <==> i.extraRc + n >= 2 * RcHalf(l))
            && (!overflow ==>
                  var w := Encode(l, FieldsOf(l, sum).extraRc, side, LowOf(l, sum));
                  var j := i.(extraRc := i.extraRc + n, hasSidetableRc := side);
                  FieldsOf(l, w) == j && (WordDeallocating(l, w) <==> IsDeallocating(j)))
  {
    AddWord(l, i, n);
    if i.extraRc + n < 2 * RcHalf(l) { FlagWord(l, i.(extraRc := i.extraRc + n), side); }
  }

  lemma AssocSame(half: nat, l: Layout, s: State, t: nat, spurious: bool)
    requires ValidLayout(l) && t < |s.threads| && s.threads[t].AssocLoop? && WordFits(l, s.isa)
    requires WordFits(l, s.threads[t].seen) && WordFits(l, s.threads[t].seen.(hasAssoc := true))
    ensures AssocOnWord(l, s, t, s.threads[t].seen, spurious) == Go1(half, s, t, spurious)
  {
    var seen := s.threads[t].seen;
    SameWord(l, s.isa, seen);
    FieldsBack(l, seen);
    LowBack(seen);
    FieldsBack(l, seen.(hasAssoc := true));
  }

  lemma WeakSame(half: nat, l: Layout, s: State, t: nat, spurious: bool)
    requires ValidLayout(l) && t < |s.threads| && s.threads[t].WeakLoop? && WordFits(l, s.isa)
    requires WordFits(l, s.threads[t].seen) && WordFits(l, s.threads[t].seen.(weaklyReferenced := true))
    ensures WeakOnWord(l, s, t, s.threads[t].seen, spurious) == Go1(half, s, t, spurious)
  {
    var seen := s.threads[t].seen;
    SameWord(l, s.isa, seen);
    FieldsBack(l, seen);
    LowBack(seen);
    FieldsBack(l, seen.(weaklyReferenced := true));
  }

  /** Setting has_sidetable_rc in a word. */
  lemma FlagWord(l: Layout, i: Isa, side: bool)
    requires ValidLayout(l) && WordFits(l, i)
    ensures var w := Encode(l, FieldsOf(l, WordOf(l, i)).extraRc, side, LowOf(l, WordOf(l, i)));
            FieldsOf(l, w) == i.(hasSidetableRc := side)
            && (WordDeallocating(l, w) <==> IsDeallocating(i.(hasSidetableRc := side)))
  {
    FieldsBack(l, i);
    WithFields(l, i, i.extraRc, side);
    DeallocatingWord(l, i.(hasSidetableRc := side));
  }

  // --------------------------------------------------------------- every run

  /** The isa words a thread remembers are of this class. */
  predicate SeenClass(pc: Pc, cls: nat) {
    match pc
    case RetainLoop(_, _, seen, _) => seen.cls == cls
    case ReleaseLoop(_, seen, _) => seen.cls == cls
    case BorrowFirst(seen, _, _) => seen.cls == cls
    case BorrowSecond(seen, _, _) => seen.cls == cls
    case AssocLoop(seen) => seen.cls == cls
    case WeakLoop(seen) => seen.cls == cls
    case _ => true
  }

  ghost predicate OneClass(s: State, cls: nat) {
    s.isa.cls == cls && forall t :: 0 <= t < |s.threads| ==> SeenClass(s.threads[t], cls)
  }

  /** Thread t has moved, and everything is still of one class. */
  ghost predicate StillOne(s: State, s': State, t: nat, cls: nat)
    requires t < |s.threads|
  {
    && s'.isa.cls == cls && |s'.threads| == |s.threads| && SeenClass(s'.threads[t], cls)
    && forall u :: 0 <= u < |s.threads| && u != t ==> s'.threads[u] == s.threads[u]
  }

  lemma RetainOneClass(half: nat, s: State, t: nat, spurious: bool, cls: nat)
    requires t < |s.threads| && OneClass(s, cls) && s.threads[t].RetainLoop?
    ensures StillOne(s, Go1(half, s, t, spurious), t, cls)
  {
    assert SeenClass(s.threads[t], cls);
    var RetainLoop(try, full, seen, locked) := s.threads[t];
    assert Go1(half, s, t, spurious) == StepRetainLoop(half, s, t, try, full, seen, locked, spurious);
  }

  lemma ReleaseOneClass(half: nat, s: State, t: nat, spurious: bool, cls: nat)
    requires t < |s.threads| && OneClass(s, cls) && s.threads[t].ReleaseLoop?
    ensures StillOne(s, Go1(half, s, t, spurious), t, cls)
  {
    assert SeenClass(s.threads[t], cls);
    var ReleaseLoop(full, seen, locked) := s.threads[t];
    assert Go1(half, s, t, spurious) == StepReleaseLoop(half, s, t, full, seen, locked, spurious);
  }

  lemma GoOneClass(half: nat, s: State, t: nat, spurious: bool, cls: nat)
    requires t < |s.threads| && OneClass(s, cls)
    ensures StillOne(s, Go1(half, s, t, spurious), t, cls)
  {
    assert SeenClass(s.threads[t], cls);
    match s.threads[t]
    case RetainLoop(_, _, _, _) => RetainOneClass(half, s, t, spurious, cls);
    case ReleaseLoop(_, _, _) => ReleaseOneClass(half, s, t, spurious, cls);
    case _ =>
  }

  lemma StartOneClass(half: nat, s: State, m: Move, cls: nat)
    requires m.thread < |s.threads| && OneClass(s, cls) && !m.choice.Go?
    ensures StillOne(s, Step(half, s, m), m.thread, cls)
  {
    assert SeenClass(s.threads[m.thread], cls);
  }

  lemma StepOneClass(half: nat, s: State, m: Move, cls: nat)
    requires OneClass(s, cls)
    ensures OneClass(Step(half, s, m), cls)
  {
    if m.thread < |s.threads| && !s.trapped {
      if m.choice.Go? {
        GoOneClass(half, s, m.thread, m.choice.spurious, cls);
      } else {
        StartOneClass(half, s, m, cls);
      }
    }
  }

  lemma {:induction false} RunOneClass(half: nat, n: nat, cls: nat, moves: seq<Move>)
    ensures OneClass(Run(half, Init(n, cls), moves), cls)
    decreases |moves|
  {
    if moves != [] {
      var k := |moves| - 1;
      RunOneClass(half, n, cls, moves[..k]);
      StepOneClass(half, Run(half, Init(n, cls), moves[..k]), moves[k], cls);
    }
  }

  lemma FitsByClass(l: Layout, i: Isa)
    requires ValidLayout(l) && i.extraRc < 2 * RcHalf(l) && 4 * i.cls + 3 < SideBit(l)
    ensures WordFits(l, i)
  {
    assert Pow2(l.rcBits) == 2 * RcHalf(l);
  }

  lemma StepSame(l: Layout, s: State, m: Move, cls: nat)
    requires ValidLayout(l) && RcHalf(l) >= 2 && Inv(RcHalf(l), s) && OneClass(s, cls) && 4 * cls + 3 < SideBit(l)
    ensures StepOnWord(l, s, m) == Step(RcHalf(l), s, m)
  {
    var t := m.thread;
    if !s.trapped && t < |s.threads| && m.choice.Go? {
      assert Local(RcHalf(l), s, s.threads[t]) && SeenClass(s.threads[t], cls);
      FitsByClass(l, s.isa);
      match s.threads[t]
      case RetainLoop(try, full, seen, locked) =>
        FitsByClass(l, seen);
        RetainSame(l, s, t, try, full, seen, locked, m.choice.spurious);
      case ReleaseLoop(full, seen, locked) =>
        FitsByClass(l, seen);
        ReleaseSame(l, s, t, full, seen, locked, m.choice.spurious);
      case BorrowFirst(seen, b, emptied) =>
        FitsByClass(l, seen);
        BorrowFirstSame(l, s, t, seen, b, emptied, m.choice.spurious);
      case BorrowSecond(seen, b, emptied) =>
        FitsByClass(l, seen);
        BorrowSecondSame(l, s, t, seen, b, emptied, m.choice.spurious);
      case AssocLoop(seen) =>
        FitsByClass(l, seen);
        FitsByClass(l, seen.(hasAssoc := true));
        AssocSame(RcHalf(l), l, s, t, m.choice.spurious);
      case WeakLoop(seen) =>
        FitsByClass(l, seen);
        FitsByClass(l, seen.(weaklyReferenced := true));
        WeakSame(RcHalf(l), l, s, t, m.choice.spurious);
      case _ =>
    }
  }

  /** In every layout, every run of the loops on isa words is the run of the
      field-level machine with half the range of extra_rc, so all that is proved
      of the machine holds of the words. */
  lemma {:induction false} RunSame(l: Layout, n: nat, cls: nat, moves: seq<Move>)
    requires l in {X86_64, ARM64, ARM64E, ARMV7K} && 4 * cls + 3 < Pow2(l.rcShift - 1)
    ensures ValidLayout(l) && RcHalf(l) >= 2
    ensures RunOnWord(l, Init(n, cls), moves) == Run(RcHalf(l), Init(n, cls), moves)
    decreases |moves|
  {
    HalfOfRange(l);
    if moves != [] {
      var k := |moves| - 1;
      RunSame(l, n, cls, moves[..k]);
      RunKeepsInv(RcHalf(l), n, cls, moves[..k]);
      RunOneClass(RcHalf(l), n, cls, moves[..k]);
      StepSame(l, Run(RcHalf(l), Init(n, cls), moves[..k]), moves[k], cls);
    }
  }
}
