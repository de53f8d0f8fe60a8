/** tryRetain runs with the side-table lock held by its caller and must leave
    it held.  It does not always: when the inline count overflows, the store
    fails, and the object starts deallocating before the next attempt, the
    deallocating branch drops the caller's lock.  This module proves exactly
    which objects that can happen to. */
module TryRetainLock {
  import opened RetainRelease
  import opened RetainReleaseProofs
  import opened RetainReleaseTheorems

  /** Thread t does nothing but go on with its call. */
  predicate OnlyGoes(t: nat, moves: seq<Move>) {
    forall i :: 0 <= i < |moves| && moves[i].thread == t ==> moves[i].choice.Go?
  }

  /** The tryRetain of thread t has returned without the caller's lock. */
  predicate LostLock(s: State, t: nat) {
    t < |s.threads| && s.threads[t].TryDone? && s.lock != HeldBy(t)
  }

  ghost predicate CanLoseLock(half: nat, s: State, t: nat) {
    exists moves :: OnlyGoes(t, moves) && LostLock(Run(half, s, moves), t)
  }

  // -------------------------------------------------------- the safe objects

  /** Thread t is inside a tryRetain that cannot reach the unlocking branch,
      or has left it with the lock still held. */
  predicate SafeTry(s: State, t: nat) {
    && t < |s.threads|
    && (s.threads[t].Idle? ||
        (&& s.lock == HeldBy(t)
         && (match s.threads[t]
             case RetainLoop(try, _, seen, locked) =>
               try && ((s.isa.hasSidetableRc && seen.hasSidetableRc) || (IsDeallocating(seen) && !locked))
             case RetainAdd(try) => try
             case TryDone(_) => true
             case _ => false)))
  }

  lemma OtherLeavesSafe(half: nat, s: State, t: nat, m: Move)
    requires half >= 2 && Inv(half, s) && SafeTry(s, t) && m.thread != t && m.thread < |s.threads|
    requires s.lock == HeldBy(t)
    ensures var s' := Step(half, s, m);
            s'.lock == s.lock && s'.isa.hasSidetableRc == s.isa.hasSidetableRc && s'.threads[t] == s.threads[t]
  {
    assert !Holds(s.threads[m.thread]);
    if m.choice.Go? && !s.trapped {
      match s.threads[m.thread]
      case RetainLoop(try, full, seen, locked) =>
        assert Local(half, s, s.threads[m.thread]);
      case ReleaseLoop(full, seen, locked) =>
        assert Local(half, s, s.threads[m.thread]);
      case _ =>
    }
  }

  lemma StepSafe(half: nat, s: State, t: nat, m: Move)
    requires half >= 2 && Inv(half, s) && SafeTry(s, t) && (m.thread == t ==> m.choice.Go?)
    ensures SafeTry(Step(half, s, m), t)
  {
    if m.thread < |s.threads| && !s.trapped {
      if m.thread == t {
        match s.threads[t]
        case RetainLoop(try, full, seen, locked) =>
          assert Local(half, s, s.threads[t]);
        case _ =>
      } else if s.threads[t].Idle? {
        OtherStaysPut(half, s, t, m);
      } else {
        OtherLeavesSafe(half, s, t, m);
      }
    }
  }

  lemma OtherStaysPut(half: nat, s: State, t: nat, m: Move)
    requires t < |s.threads| && m.thread != t
    ensures t < |Step(half, s, m).threads| && Step(half, s, m).threads[t] == s.threads[t]
  {
    if m.thread < |s.threads| && m.choice.Go? && !s.trapped {
      match s.threads[m.thread]
      case RetainLoop(try, full, seen, locked) =>
      case ReleaseLoop(full, seen, locked) =>
      case _ =>
    }
  }

  lemma {:induction false} RunSafe(half: nat, s: State, t: nat, moves: seq<Move>)
    requires half >= 2 && Inv(half, s) && SafeTry(s, t) && OnlyGoes(t, moves)
    ensures Inv(half, Run(half, s, moves)) && SafeTry(Run(half, s, moves), t)
    decreases |moves|
  {
    if moves != [] {
      var k := |moves| - 1;
      RunSafe(half, s, t, moves[..k]);
      StepSafe(half, Run(half, s, moves[..k]), t, moves[k]);
      StepKeepsInv(half, Run(half, s, moves[..k]), moves[k]);
    }
  }

  // ------------------------------------------------------ the unsafe objects

  function RetainMoves(u: nat, k: nat): seq<Move> {
    if k == 0 then [] else RetainMoves(u, k - 1) + [Move(u, StartRetain(true)), Move(u, Go(false))]
  }

  function ReleaseMoves(u: nat, k: nat): seq<Move> {
    if k == 0 then [] else ReleaseMoves(u, k - 1) + [Move(u, StartRelease(true)), Move(u, Go(false))]
  }

  lemma RunTwo(half: nat, s: State, a: seq<Move>, m1: Move, m2: Move)
    ensures Run(half, s, a + [m1, m2]) == Step(half, Step(half, Run(half, s, a), m1), m2)
  {
    var b := a + [m1];
    assert (a + [m1, m2])[..|a| + 1] == b;
    assert b[..|a|] == a;
  }

  /** s' differs from s in the inline count and the log only. */
  predicate OnlyExtra(s: State, s': State, extra: nat) {
    s' == s.(isa := s.isa.(extraRc := extra), log := s'.log)
  }

  /** One undisturbed retain, and one undisturbed release, in both variants. */
  lemma OneRetain(half: nat, s: State, s1: State, u: nat, extra: nat, full: bool)
    requires !s.trapped && u < |s.threads| && s.threads[u].Idle? && OnlyExtra(s, s1, extra) && 0 < extra < 2 * half - 1
    ensures OnlyExtra(s, Step(half, Step(half, s1, Move(u, StartRetain(full))), Move(u, Go(false))), extra + 1)
  {
    var s2 := Step(half, s1, Move(u, StartRetain(full)));
    assert s2 == At(s1, u, RetainLoop(false, full, s1.isa, false));
    assert s2.threads[u := Idle] == s.threads;
  }

  lemma OneRelease(half: nat, s: State, s1: State, u: nat, extra: nat, full: bool)
    requires !s.trapped && u < |s.threads| && s.threads[u].Idle? && OnlyExtra(s, s1, extra) && 0 < extra
    ensures OnlyExtra(s, Step(half, Step(half, s1, Move(u, StartRelease(full))), Move(u, Go(false))), extra - 1)
  {
    var s2 := Step(half, s1, Move(u, StartRelease(full)));
    assert s2 == At(s1, u, ReleaseLoop(full, s1.isa, false));
    assert s2.threads[u := Idle] == s.threads;
  }

  lemma MoreRetains(half: nat, s: State, a: seq<Move>, u: nat, extra: nat)
    requires !s.trapped && u < |s.threads| && s.threads[u].Idle?
    requires OnlyExtra(s, Run(half, s, a), extra) && 0 < extra < 2 * half - 1
    ensures OnlyExtra(s, Run(half, s, a + [Move(u, StartRetain(true)), Move(u, Go(false))]), extra + 1)
  {
    RunTwo(half, s, a, Move(u, StartRetain(true)), Move(u, Go(false)));
    OneRetain(half, s, Run(half, s, a), u, extra, true);
  }

  lemma MoreReleases(half: nat, s: State, a: seq<Move>, u: nat, extra: nat)
    requires !s.trapped && u < |s.threads| && s.threads[u].Idle? && OnlyExtra(s, Run(half, s, a), extra) && 0 < extra
    ensures OnlyExtra(s, Run(half, s, a + [Move(u, StartRelease(true)), Move(u, Go(false))]), extra - 1)
  {
    RunTwo(half, s, a, Move(u, StartRelease(true)), Move(u, Go(false)));
    OneRelease(half, s, Run(half, s, a), u, extra, true);
  }

  lemma {:induction false} ManyRetains(half: nat, s: State, u: nat, k: nat)
    requires !s.trapped && u < |s.threads| && s.threads[u].Idle?
    requires s.isa.extraRc > 0 && s.isa.extraRc + k < 2 * half
    ensures OnlyExtra(s, Run(half, s, RetainMoves(u, k)), s.isa.extraRc + k)
  {
    if k > 0 {
      ManyRetains(half, s, u, k - 1);
      MoreRetains(half, s, RetainMoves(u, k - 1), u, s.isa.extraRc + k - 1);
    }
  }

  lemma {:induction false} ManyReleases(half: nat, s: State, u: nat, k: nat)
    requires !s.trapped && u < |s.threads| && s.threads[u].Idle?
    requires k <= s.isa.extraRc
    ensures OnlyExtra(s, Run(half, s, ReleaseMoves(u, k)), s.isa.extraRc - k)
  {
    if k > 0 {
      ManyReleases(half, s, u, k - 1);
      MoreReleases(half, s, ReleaseMoves(u, k - 1), u, s.isa.extraRc - (k - 1));
    }
  }

  lemma {:induction false} RetainMovesElsewhere(t: nat, u: nat, k: nat)
    requires t != u
    ensures OnlyGoes(t, RetainMoves(u, k)) && OnlyGoes(t, ReleaseMoves(u, k))
  {
    if k > 0 { RetainMovesElsewhere(t, u, k - 1); }
  }

  /** With nothing in the side table, another thread can fill the inline count
      under t's nose and then drain it, and t drops its caller's lock. */
  lemma LosesLock(half: nat, s: State, t: nat, u: nat) returns (moves: seq<Move>)
    requires half >= 2 && !s.trapped && t < |s.threads| && u < |s.threads| && t != u
    requires s.threads[t] == RetainLoop(true, true, s.isa, false) && s.threads[u].Idle?
    requires !s.isa.hasSidetableRc && 0 < s.isa.extraRc < 2 * half
    ensures OnlyGoes(t, moves) && LostLock(Run(half, s, moves), t)
  {
    var a := FillAndStall(half, s, t, u);
    var b := DrainAndDrop(half, Run(half, s, a), t, u);
    RunAppend(half, s, a, b);
    moves := a + b;
  }

  lemma DrainAndDrop(half: nat, s: State, t: nat, u: nat) returns (moves: seq<Move>)
    requires half >= 2 && !s.trapped && t < |s.threads| && u < |s.threads| && t != u
    requires s.threads[t] == RetainLoop(true, true, s.isa, true) && s.threads[u].Idle?
    requires s.isa.extraRc == 2 * half - 1 && !s.isa.hasSidetableRc
    ensures OnlyGoes(t, moves) && LostLock(Run(half, s, moves), t)
  {
    var drain := ReleaseMoves(u, s.isa.extraRc);
    ManyReleases(half, s, u, s.isa.extraRc);
    RetainMovesElsewhere(t, u, s.isa.extraRc);
    Finish(half, s, drain, t);
    moves := drain + [Move(t, Go(false)), Move(t, Go(false))];
  }

  lemma Finish(half: nat, s: State, a: seq<Move>, t: nat)
    requires half >= 2 && !s.trapped && t < |s.threads|
    requires s.threads[t] == RetainLoop(true, true, s.isa, true) && s.isa.extraRc == 2 * half - 1
    requires !s.isa.hasSidetableRc && OnlyExtra(s, Run(half, s, a), 0)
    ensures LostLock(Run(half, s, a + [Move(t, Go(false)), Move(t, Go(false))]), t)
  {
    RunTwo(half, s, a, Move(t, Go(false)), Move(t, Go(false)));
    Dropped(half, Run(half, s, a), t);
  }

  lemma FillAndStall(half: nat, s: State, t: nat, u: nat) returns (moves: seq<Move>)
    requires half >= 2 && !s.trapped && t < |s.threads| && u < |s.threads| && t != u
    requires s.threads[t] == RetainLoop(true, true, s.isa, false) && s.threads[u].Idle?
    requires 0 < s.isa.extraRc < 2 * half
    ensures OnlyGoes(t, moves)
    ensures var isa' := s.isa.(extraRc := 2 * half - 1);
            var s' := Run(half, s, moves);
            s' == At(s.(isa := isa', log := s'.log), t, RetainLoop(true, true, isa', true))
  {
    var k := 2 * half - 1 - s.isa.extraRc;
    ManyRetains(half, s, u, k);
    RetainMovesElsewhere(t, u, k);
    var s1 := Run(half, s, RetainMoves(u, k));
    RunTwo(half, s, RetainMoves(u, k), Move(t, Go(true)), Move(t, Go(true)));
    StalledAtTop(half, s, s1, t);
    moves := RetainMoves(u, k) + [Move(t, Go(true)), Move(t, Go(true))];
    StallShape(half, s, s1, t);
  }

  lemma StallShape(half: nat, s: State, s1: State, t: nat)
    requires half >= 2 && t < |s.threads| && OnlyExtra(s, s1, 2 * half - 1)
    ensures var isa' := s.isa.(extraRc := 2 * half - 1);
            var s' := At(s1, t, RetainLoop(true, true, s1.isa, true));
            s' == At(s.(isa := isa', log := s'.log), t, RetainLoop(true, true, isa', true))
  {
  }

  lemma StalledAtTop(half: nat, s: State, s1: State, t: nat)
    requires half >= 2 && !s1.trapped && t < |s.threads| && s1.threads == s.threads && s1.isa.extraRc == 2 * half - 1
    requires s.threads[t] == RetainLoop(true, true, s.isa, false) && !IsDeallocating(s.isa)
    requires s.isa.extraRc < 2 * half
    ensures Step(half, Step(half, s1, Move(t, Go(true))), Move(t, Go(true)))
            == At(s1, t, RetainLoop(true, true, s1.isa, true))
  {
  }

  lemma Dropped(half: nat, s: State, t: nat)
    requires half >= 2 && !s.trapped && t < |s.threads| && s.threads[t].RetainLoop?
    requires s.threads[t] == RetainLoop(true, true, s.threads[t].seen, true)
    requires s.threads[t].seen.extraRc == 2 * half - 1 && IsDeallocating(s.isa)
    ensures LostLock(Step(half, Step(half, s, Move(t, Go(false))), Move(t, Go(false))), t)
  {
  }

  /** A call that started in the Fast variant goes on in the Full one when it
      finds the inline count at its top, which another thread can arrange. */
  lemma FastToFull(half: nat, s: State, t: nat, u: nat) returns (moves: seq<Move>)
    requires half >= 2 && !s.trapped && t < |s.threads| && u < |s.threads| && t != u
    requires s.threads[t] == RetainLoop(true, false, s.isa, false) && s.threads[u].Idle?
    requires !s.isa.hasSidetableRc && 0 < s.isa.extraRc < 2 * half
    ensures OnlyGoes(t, moves)
    ensures var isa' := s.isa.(extraRc := 2 * half - 1);
            var s' := Run(half, s, moves);
            s' == At(s.(isa := isa', log := s'.log), t, RetainLoop(true, true, isa', false))
  {
    var k := 2 * half - 1 - s.isa.extraRc;
    ManyRetains(half, s, u, k);
    RetainMovesElsewhere(t, u, k);
    var fill := RetainMoves(u, k);
    var s1 := Run(half, s, fill);
    if k == 0 {
      moves := [Move(t, Go(true))];
      assert moves[..0] == fill;
      WidenNow(half, s, s1, t);
    } else {
      moves := fill + [Move(t, Go(true)), Move(t, Go(true))];
      RunTwo(half, s, fill, Move(t, Go(true)), Move(t, Go(true)));
      WidenLater(half, s, s1, t);
    }
  }

  /** Already at the top: one step. */
  lemma WidenNow(half: nat, s: State, s1: State, t: nat)
    requires half >= 2 && !s1.trapped && t < |s.threads| && OnlyExtra(s, s1, 2 * half - 1)
    requires s.threads[t] == RetainLoop(true, false, s.isa, false) && s.isa.extraRc == 2 * half - 1
    ensures var s' := Step(half, s1, Move(t, Go(true)));
            s' == At(s.(isa := s.isa.(extraRc := 2 * half - 1), log := s'.log), t,
                     RetainLoop(true, true, s.isa.(extraRc := 2 * half - 1), false))
  {
  }

  /** Below the top before: the stale exchange fails, and the reload finds it. */
  lemma WidenLater(half: nat, s: State, s1: State, t: nat)
    requires half >= 2 && !s1.trapped && t < |s.threads| && OnlyExtra(s, s1, 2 * half - 1)
    requires s.threads[t] == RetainLoop(true, false, s.isa, false) && 0 < s.isa.extraRc < 2 * half - 1
    ensures var s' := Step(half, Step(half, s1, Move(t, Go(true))), Move(t, Go(true)));
            s' == At(s.(isa := s.isa.(extraRc := 2 * half - 1), log := s'.log), t,
                     RetainLoop(true, true, s.isa.(extraRc := 2 * half - 1), false))
  {
    var s2 := Step(half, s1, Move(t, Go(true)));
    assert s2 == At(s1, t, RetainLoop(true, false, s1.isa, false));
    assert s2.threads == s.threads[t := RetainLoop(true, false, s1.isa, false)];
  }

  lemma LosesLockEither(half: nat, s: State, t: nat, u: nat, full: bool) returns (moves: seq<Move>)
    requires half >= 2 && !s.trapped && t < |s.threads| && u < |s.threads| && t != u
    requires s.threads[t] == RetainLoop(true, full, s.isa, false) && s.threads[u].Idle?
    requires !s.isa.hasSidetableRc && 0 < s.isa.extraRc < 2 * half
    ensures OnlyGoes(t, moves) && LostLock(Run(half, s, moves), t)
  {
    if full {
      moves := LosesLock(half, s, t, u);
    } else {
      var a := FastToFull(half, s, t, u);
      var b := LosesLock(half, Run(half, s, a), t, u);
      RunAppend(half, s, a, b);
      moves := a + b;
    }
  }

  /** A tryRetain of either variant, started while another thread is free to
      act, can return with its caller's lock dropped if and only if the object
      is alive and has no counts in the side table. */
  lemma TryRetainLosesLockIff(half: nat, s: State, t: nat, u: nat, full: bool)
    requires half >= 2 && Inv(half, s) && !s.trapped && t < |s.threads| && u < |s.threads| && t != u
    requires s.threads[t].CallerLocked? && s.threads[u].Idle?
    ensures CanLoseLock(half, Step(half, s, Move(t, StartTry(full))), t)
            <==> !s.isa.hasSidetableRc && !IsDeallocating(s.isa)
  {
    var s1 := Step(half, s, Move(t, StartTry(full)));
    StepKeepsInv(half, s, Move(t, StartTry(full)));
    if !s.isa.hasSidetableRc && !IsDeallocating(s.isa) {
      var moves := LosesLockEither(half, s1, t, u, full);
    } else {
      forall moves | OnlyGoes(t, moves) ensures !LostLock(Run(half, s1, moves), t) {
        RunSafe(half, s1, t, moves);
      }
    }
  }
}
