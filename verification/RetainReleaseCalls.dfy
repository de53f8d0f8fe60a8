/** What the single calls of the retain/release protocol promise in every run:
    when they may refuse, and what they leave behind. */
module RetainReleaseCalls {
  import opened RetainRelease
  import opened RetainReleaseProofs
  import opened RetainReleaseTheorems

  // ---------------------------------------------------------------- refusals

  /** A call that does not count. */
  predicate Refusal(o: Outcome) { o.RetainedDead? || o.TryFailed? || o.ReleasedDead? }

  predicate PcRefusal(pc: Pc) { (pc.Unlocking? || pc.TryDone?) && Refusal(pc.outcome) }

  /** An isa word that a thread remembers is an earlier one of the object. */
  predicate SeenLater(pc: Pc, isa: Isa) {
    match pc
    case RetainLoop(_, _, seen, _) => Later(seen, isa)
    case ReleaseLoop(_, seen, _) => Later(seen, isa)
    case BorrowFirst(seen, _, _) => Later(seen, isa)
    case BorrowSecond(seen, _, _) => Later(seen, isa)
    case AssocLoop(seen) => Later(seen, isa)
    case WeakLoop(seen) => Later(seen, isa)
    case _ => !PcRefusal(pc) || IsDeallocating(isa)
  }

  ghost predicate Refused(s: State) {
    && (forall t :: 0 <= t < |s.threads| ==> SeenLater(s.threads[t], s.isa))
    && (forall i :: 0 <= i < |s.log| && Refusal(s.log[i]) ==> IsDeallocating(s.isa))
  }

  /** Thread t has moved from a state in which nobody had refused without
      reason. */
  ghost predicate StillRefused(s: State, s': State, t: nat)
    requires t < |s.threads|
  {
    && |s'.threads| == |s.threads| && s'.threads == s.threads[t := s'.threads[t]]
    && SeenLater(s'.threads[t], s'.isa)
    && LogGrows(s.log, s'.log, s'.isa)
  }

  ghost predicate LogGrows(a: seq<Outcome>, b: seq<Outcome>, isa: Isa) {
    b == a || exists o :: b == a + [o] && (Refusal(o) ==> IsDeallocating(isa))
  }

  lemma RetainRefuses(half: nat, s: State, t: nat, spurious: bool)
    requires half >= 2 && t < |s.threads| && s.threads[t].RetainLoop? && SeenLater(s.threads[t], s.isa)
    ensures StillRefused(s, Go1(half, s, t, spurious), t)
  {
    var RetainLoop(try, full, seen, locked) := s.threads[t];
    RetainLoopRefuses(half, s, t, try, full, seen, locked, spurious);
  }

  lemma RetainLoopRefuses(half: nat, s: State, t: nat, try: bool, full: bool, seen: Isa, locked: bool, spurious: bool)
    requires half >= 2 && t < |s.threads| && Later(seen, s.isa)
    requires s.threads[t] == RetainLoop(try, full, seen, locked)
    ensures StillRefused(s, StepRetainLoop(half, s, t, try, full, seen, locked, spurious), t)
  {
    if IsDeallocating(seen) {
      var s1 := if locked then s.(lock := Free) else s;
      if try { AtRefuses(s1, s, t, TryDone(TryFailed)); } else { ReturnRefuses(s1, s, t, RetainedDead); }
    } else {
      RetainLiveRefuses(half, s, t, try, full, seen, locked, spurious);
    }
  }

  lemma RetainLiveRefuses(half: nat, s: State, t: nat, try: bool, full: bool, seen: Isa, locked: bool, spurious: bool)
    requires half >= 2 && t < |s.threads| && Later(seen, s.isa) && !IsDeallocating(seen)
    requires s.threads[t] == RetainLoop(try, full, seen, locked)
    ensures StillRefused(s, StepRetainLoop(half, s, t, try, full, seen, locked, spurious), t)
  {
    if seen.extraRc + 1 < 2 * half {
      LeaveRefuses(s.(isa := seen.(extraRc := seen.extraRc + 1)), s, t, try, locked);
      AtRefuses(s, s, t, RetainLoop(try, full, s.isa, locked));
    } else if !full {
      AtRefuses(s, s, t, RetainLoop(try, true, s.isa, false));
    } else if !try && !locked {
      assert s.threads[t := s.threads[t]] == s.threads;
      AtRefuses(s.(lock := HeldBy(t)), s, t, RetainLoop(try, full, seen, true));
    } else {
      AtRefuses(s.(isa := seen.(extraRc := half, hasSidetableRc := true)), s, t, RetainAdd(try));
      AtRefuses(s, s, t, RetainLoop(try, full, s.isa, true));
    }
  }

  lemma LeaveRefuses(s1: State, s: State, t: nat, try: bool, locked: bool)
    requires t < |s.threads| && s1.threads == s.threads && s1.log == s.log
    ensures StillRefused(s, At(s1, t, TryDone(Retained)), t) && StillRefused(s, Leave(s1, t, locked, Retained), t)
  {
    AtRefuses(s1, s, t, TryDone(Retained));
    AtRefuses(s1, s, t, Unlocking(Retained));
    ReturnRefuses(s1, s, t, Retained);
  }

  lemma AtRefuses(s1: State, s: State, t: nat, pc: Pc)
    requires t < |s.threads| && s1.threads == s.threads && s1.log == s.log && SeenLater(pc, s1.isa)
    ensures StillRefused(s, At(s1, t, pc), t)
  {
  }

  lemma ReleaseRefuses(half: nat, s: State, t: nat, spurious: bool)
    requires half >= 2 && t < |s.threads| && s.threads[t].ReleaseLoop? && SeenLater(s.threads[t], s.isa)
    ensures StillRefused(s, Go1(half, s, t, spurious), t)
  {
    var ReleaseLoop(full, seen, locked) := s.threads[t];
    ReleaseLoopRefuses(half, s, t, full, seen, locked, spurious);
  }

  lemma ReleaseLoopRefuses(half: nat, s: State, t: nat, full: bool, seen: Isa, locked: bool, spurious: bool)
    requires half >= 2 && t < |s.threads| && Later(seen, s.isa) && s.threads[t] == ReleaseLoop(full, seen, locked)
    ensures StillRefused(s, StepReleaseLoop(half, s, t, full, seen, locked, spurious), t)
  {
    assert LogGrows(s.log, s.log + [ReleasedDead], s.isa) || !IsDeallocating(seen);
    assert forall isa :: LogGrows(s.log, s.log + [Released], isa) && LogGrows(s.log, s.log + [ReportedDealloc], isa);
  }

  lemma GoRefuses(half: nat, s: State, t: nat, spurious: bool)
    requires half >= 2 && t < |s.threads| && SeenLater(s.threads[t], s.isa)
    ensures StillRefused(s, Go1(half, s, t, spurious), t)
  {
    match s.threads[t]
    case RetainLoop(_, _, _, _) => RetainRefuses(half, s, t, spurious);
    case ReleaseLoop(_, _, _) => ReleaseRefuses(half, s, t, spurious);
    case Unlocking(o) => ReturnRefuses(s.(lock := Free), s, t, o);
    case TryDone(o) => ReturnRefuses(s.(lock := Free), s, t, o);
    case BorrowFirst(_, _, _) => BorrowRefuses(half, s, t, spurious);
    case BorrowSecond(_, _, _) => BorrowRefuses(half, s, t, spurious);
    case _ => OthersRefuse(half, s, t, spurious);
  }

  lemma BorrowRefuses(half: nat, s: State, t: nat, spurious: bool)
    requires t < |s.threads| && (s.threads[t].BorrowFirst? || s.threads[t].BorrowSecond?)
    ensures StillRefused(s, Go1(half, s, t, spurious), t)
  {
  }

  lemma ReturnRefuses(s1: State, s: State, t: nat, o: Outcome)
    requires t < |s.threads| && s1.threads == s.threads && s1.log == s.log
    requires Refusal(o) ==> IsDeallocating(s1.isa)
    ensures StillRefused(s, Return(s1, t, o), t)
  {
    assert LogGrows(s.log, s.log + [o], s1.isa);
  }

  lemma OthersRefuse(half: nat, s: State, t: nat, spurious: bool)
    requires half >= 2 && t < |s.threads| && SeenLater(s.threads[t], s.isa)
    requires !s.threads[t].RetainLoop? && !s.threads[t].ReleaseLoop? && !s.threads[t].Unlocking?
    requires !s.threads[t].TryDone? && !s.threads[t].BorrowFirst? && !s.threads[t].BorrowSecond?
    ensures StillRefused(s, Go1(half, s, t, spurious), t)
  {
    assert s.threads[t := s.threads[t]] == s.threads;
  }

  lemma StartRefuses(half: nat, s: State, m: Move)
    requires m.thread < |s.threads| && !m.choice.Go? && SeenLater(s.threads[m.thread], s.isa)
    ensures StillRefused(s, Step(half, s, m), m.thread)
  {
  }

  lemma RefusedKept(s: State, s': State, t: nat)
    requires Refused(s) && t < |s.threads| && StillRefused(s, s', t) && Later(s.isa, s'.isa)
    ensures Refused(s')
  {
    forall i | 0 <= i < |s'.log| && Refusal(s'.log[i]) ensures IsDeallocating(s'.isa) {
      if i < |s.log| { assert s'.log[i] == s.log[i]; }
    }
  }

  lemma StepRefused(half: nat, s: State, m: Move)
    requires half >= 2 && Inv(half, s) && Refused(s)
    ensures Refused(Step(half, s, m))
  {
    if m.thread < |s.threads| && !s.trapped {
      StepLater(half, s, m);
      if m.choice.Go? { GoRefuses(half, s, m.thread, m.choice.spurious); } else { StartRefuses(half, s, m); }
      RefusedKept(s, Step(half, s, m), m.thread);
    }
  }

  lemma {:induction false} RunRefused(half: nat, n: nat, cls: nat, moves: seq<Move>)
    requires half >= 2
    ensures Refused(Run(half, Init(n, cls), moves))
    decreases |moves|
  {
    if moves != [] {
      var k := |moves| - 1;
      RunRefused(half, n, cls, moves[..k]);
      RunKeepsInv(half, n, cls, moves[..k]);
      StepRefused(half, Run(half, Init(n, cls), moves[..k]), moves[k]);
    }
  }

  /** A retain, tryRetain or release is turned down only when the object has no
      reference left. */
  lemma OnlyDeadRefuses(half: nat, n: nat, cls: nat, moves: seq<Move>, i: nat, t: nat)
    requires half >= 2
    ensures var s := Run(half, Init(n, cls), moves);
            (i < |s.log| && Refusal(s.log[i])) || (t < |s.threads| && PcRefusal(s.threads[t])) ==>
              IsDeallocating(s.isa) && Total(s) == 0
  {
    RunRefused(half, n, cls, moves);
    SideTableExact(half, n, cls, moves);
    var s := Run(half, Init(n, cls), moves);
    if t < |s.threads| { assert SeenLater(s.threads[t], s.isa); }
  }

  // ------------------------------------------------------------------- flags

  lemma FlagStep(half: nat, s: State, m: Move)
    requires half >= 2 && Refused(s) && m.thread < |s.threads| && !s.trapped
    ensures s.threads[m.thread].AssocLoop? && !Step(half, s, m).threads[m.thread].AssocLoop? ==>
              Step(half, s, m).isa.hasAssoc
    ensures s.threads[m.thread].WeakLoop? && !Step(half, s, m).threads[m.thread].WeakLoop? ==>
              Step(half, s, m).isa.weaklyReferenced
  {
    assert SeenLater(s.threads[m.thread], s.isa);
  }

  /** Once setHasAssociatedObjects or setWeaklyReferenced_nolock has ended, its
      flag is set, and stays so. */
  lemma FlagsSet(half: nat, n: nat, cls: nat, a: seq<Move>, m: Move, b: seq<Move>)
    requires half >= 2
    ensures var s, s1 := Run(half, Init(n, cls), a), Run(half, Init(n, cls), a + [m]);
            var isa := Run(half, Init(n, cls), a + [m] + b).isa;
            m.thread < |s.threads| && !s.trapped && m.thread < |s1.threads| ==>
              && (s.threads[m.thread].AssocLoop? && !s1.threads[m.thread].AssocLoop? ==> isa.hasAssoc)
              && (s.threads[m.thread].WeakLoop? && !s1.threads[m.thread].WeakLoop? ==> isa.weaklyReferenced)
  {
    RunRefused(half, n, cls, a);
    RunSnoc(half, Init(n, cls), a, m);
    NeverUndone(half, n, cls, a + [m], b);
    var s := Run(half, Init(n, cls), a);
    if m.thread < |s.threads| && !s.trapped { FlagStep(half, s, m); }
  }
}
