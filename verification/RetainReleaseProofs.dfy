/** Invariants of the retain/release protocol and what they give over whole
    runs. */
module RetainReleaseProofs {
  import opened RetainRelease
  import Bits

  // ------------------------------------------------------------ accounting

  lemma {:induction false} ThreadsUpdate(ts: seq<Pc>, t: nat, pc: Pc)
    requires t < |ts|
    ensures ThreadsWeight(ts[t := pc]) == ThreadsWeight(ts) - PcWeight(ts[t]) + PcWeight(pc)
    ensures ThreadsDeallocs(ts[t := pc]) == ThreadsDeallocs(ts) - PcDealloc(ts[t]) + PcDealloc(pc)
    decreases |ts|
  {
    var n := |ts| - 1;
    if t == n {
      assert ts[t := pc][..n] == ts[..n];
    } else {
      assert ts[t := pc][..n] == ts[..n][t := pc];
      ThreadsUpdate(ts[..n], t, pc);
    }
  }

  lemma LogAppend(log: seq<Outcome>, o: Outcome)
    ensures LogWeight(log + [o]) == LogWeight(log) + OutcomeWeight(o)
    ensures LogDeallocs(log + [o]) == LogDeallocs(log) + OutcomeDealloc(o)
  {
  }

  /** Moving one thread changes the totals by that thread's weights. */
  lemma MoveTotals(s: State, s': State, t: nat, pc: Pc)
    requires t < |s.threads| && s'.threads == s.threads[t := pc] && s'.log == s.log
    ensures Total(s') == Total(s) - PcWeight(s.threads[t]) + PcWeight(pc)
    ensures DeallocReports(s') == DeallocReports(s) - PcDealloc(s.threads[t]) + PcDealloc(pc)
  {
    ThreadsUpdate(s.threads, t, pc);
  }

  /** Returning moves a weight from the thread to the log. */
  lemma ReturnTotals(s: State, s': State, t: nat, o: Outcome)
    requires t < |s.threads| && s'.threads == s.threads[t := Idle] && s'.log == s.log + [o]
    ensures Total(s') == Total(s) - PcWeight(s.threads[t]) + OutcomeWeight(o)
    ensures DeallocReports(s') == DeallocReports(s) - PcDealloc(s.threads[t]) + OutcomeDealloc(o)
  {
    ThreadsUpdate(s.threads, t, Idle);
    LogAppend(s.log, o);
  }

  /** A step in which thread t goes to pc, as far as locks, locals and the
      meaning of the isa word are concerned. */
  ghost predicate Moved(half: nat, s: State, s': State, t: nat, pc: Pc)
    requires t < |s.threads|
  {
    && s'.threads == s.threads[t := pc]
    && (|| s'.lock == s.lock
        || (s.lock.Free? && s'.lock == HeldBy(t))
        || (s.lock == HeldBy(t) && s'.lock.Free?))
    && (Holds(pc) ==> s'.lock == HeldBy(t))
    && (s'.lock == HeldBy(t) ==> Holds(pc) || pc.TryDone?)
    && (s.lock == HeldBy(t) || (s'.side == s.side && s'.isa.hasSidetableRc == s.isa.hasSidetableRc))
    && (IsDeallocating(s.isa) ==> IsDeallocating(s'.isa))
    && Local(half, s', pc)
  }

  lemma MovedKeepsLocks(half: nat, s: State, s': State, t: nat, pc: Pc)
    requires t < |s.threads| && LockInv(s) && LocalInv(half, s)
    requires Moved(half, s, s', t, pc)
    ensures LockInv(s') && LocalInv(half, s')
  {
  }

  /** Only the moving thread's transfer in flight changes. */
  lemma MovedInFlight(half: nat, s: State, s': State, t: nat, pc: Pc)
    requires t < |s.threads| && LockInv(s)
    requires Moved(half, s, s', t, pc)
    ensures InFlight(half, s') == InFlight(half, s) - PcInFlight(half, s.threads[t]) + PcInFlight(half, pc)
  {
  }

  /** The arithmetic of a step: what the isa, the side table and the transfer
      in flight gain is what the thread's call counts for. */
  ghost predicate Balanced(half: nat, s: State, isa': Isa, side': nat, t: nat, inFlight': nat, weight': int,
                           dealloc': nat)
    requires half > 0 && t < |s.threads|
  {
    var pc := s.threads[t];
    var flying := InFlight(half, s) - PcInFlight(half, pc) + inFlight';
    && isa'.extraRc < 2 * half
    && side' % half == 0
    && (isa'.hasSidetableRc <==> side' + flying > 0)
    && isa'.extraRc + side' + inFlight' - weight'
       == s.isa.extraRc + s.side + PcInFlight(half, pc) - PcWeight(pc)
    && (if IsDeallocating(isa') then 1 else 0) - dealloc'
       == (if IsDeallocating(s.isa) then 1 else 0) - PcDealloc(pc)
  }

  lemma CountsMoved(half: nat, s: State, s': State, t: nat, inFlight': nat, weight': int, dealloc': nat)
    requires half >= 2 && CountInv(half, s) && t < |s.threads|
    requires Balanced(half, s, s'.isa, s'.side, t, inFlight', weight', dealloc')
    requires InFlight(half, s') == InFlight(half, s) - PcInFlight(half, s.threads[t]) + inFlight'
    requires Total(s') == Total(s) - PcWeight(s.threads[t]) + weight'
    requires DeallocReports(s') == DeallocReports(s) - PcDealloc(s.threads[t]) + dealloc'
    ensures CountInv(half, s')
  {
  }

  lemma LogMore(log: seq<Outcome>, o: Outcome)
    requires LogInv(log) && (o.Count? ==> o.result == o.atLoad)
    ensures LogInv(log + [o])
  {
  }

  lemma MoveInv(half: nat, s: State, isa': Isa, side': nat, lock': Lock, t: nat, pc: Pc)
    requires half >= 2 && Inv(half, s) && t < |s.threads|
    requires Moved(half, s, At(s.(isa := isa', side := side', lock := lock'), t, pc), t, pc)
    requires Balanced(half, s, isa', side', t, PcInFlight(half, pc), PcWeight(pc), PcDealloc(pc))
    ensures Inv(half, At(s.(isa := isa', side := side', lock := lock'), t, pc))
  {
    var s' := At(s.(isa := isa', side := side', lock := lock'), t, pc);
    MovedKeepsLocks(half, s, s', t, pc);
    MovedInFlight(half, s, s', t, pc);
    MoveTotals(s, s', t, pc);
    CountsMoved(half, s, s', t, PcInFlight(half, pc), PcWeight(pc), PcDealloc(pc));
  }

  lemma ReturnInv(half: nat, s: State, isa': Isa, lock': Lock, t: nat, o: Outcome)
    requires half >= 2 && Inv(half, s) && t < |s.threads|
    requires Moved(half, s, Return(s.(isa := isa', lock := lock'), t, o), t, Idle)
    requires Balanced(half, s, isa', s.side, t, 0, OutcomeWeight(o), OutcomeDealloc(o))
    requires o.Count? ==> o.result == o.atLoad
    ensures Inv(half, Return(s.(isa := isa', lock := lock'), t, o))
  {
    var s' := Return(s.(isa := isa', lock := lock'), t, o);
    MovedKeepsLocks(half, s, s', t, Idle);
    MovedInFlight(half, s, s', t, Idle);
    ReturnTotals(s, s', t, o);
    LogMore(s.log, o);
    CountsMoved(half, s, s', t, 0, OutcomeWeight(o), OutcomeDealloc(o));
  }

  // ------------------------------------------------------ one step at a time

  lemma RetainDeadKeepsInv(half: nat, s: State, t: nat, spurious: bool)
    requires half >= 2 && Inv(half, s) && t < |s.threads|
    requires s.threads[t].RetainLoop? && IsDeallocating(s.threads[t].seen)
    ensures Inv(half, Go1(half, s, t, spurious))
  {
    var RetainLoop(try, full, seen, locked) := s.threads[t];
    var lock' := if locked then Free else s.lock;
    if try {
      MoveInv(half, s, s.isa, s.side, lock', t, TryDone(TryFailed));
    } else {
      ReturnInv(half, s, s.isa, lock', t, RetainedDead);
    }
  }

  lemma RetainInlineKeepsInv(half: nat, s: State, t: nat, spurious: bool)
    requires half >= 2 && Inv(half, s) && t < |s.threads|
    requires s.threads[t].RetainLoop? && !IsDeallocating(s.threads[t].seen) && s.threads[t].seen.extraRc + 1 < 2 * half
    ensures Inv(half, Go1(half, s, t, spurious))
  {
    var RetainLoop(try, full, seen, locked) := s.threads[t];
    if s.isa != seen || spurious {
      MoveInv(half, s, s.isa, s.side, s.lock, t, RetainLoop(try, full, s.isa, locked));
    } else {
      RetainSwapKeepsInv(half, s, t);
    }
  }

  /** The exchange that adds one to the inline count. */
  lemma RetainSwapKeepsInv(half: nat, s: State, t: nat)
    requires half >= 2 && Inv(half, s) && t < |s.threads|
    requires s.threads[t].RetainLoop? && s.threads[t].seen == s.isa && !IsDeallocating(s.isa)
             && s.isa.extraRc + 1 < 2 * half
    ensures Inv(half, Go1(half, s, t, false))
  {
    var RetainLoop(try, full, seen, locked) := s.threads[t];
    if try {
      MoveInv(half, s, seen.(extraRc := seen.extraRc + 1), s.side, s.lock, t, TryDone(Retained));
    } else if locked {
      RetainLockedKeepsInv(half, s, t);
    } else {
      RetainUnlockedKeepsInv(half, s, t);
    }
  }

  lemma RetainLockedKeepsInv(half: nat, s: State, t: nat)
    requires half >= 2 && Inv(half, s) && t < |s.threads|
    requires s.threads[t].RetainLoop? && s.threads[t].seen == s.isa && !s.threads[t].try && s.threads[t].locked
    requires !IsDeallocating(s.isa) && s.isa.extraRc + 1 < 2 * half
    ensures Inv(half, Go1(half, s, t, false))
  {
    assert Local(half, s, s.threads[t]);
    MoveInv(half, s, s.isa.(extraRc := s.isa.extraRc + 1), s.side, s.lock, t, Unlocking(Retained));
  }

  lemma RetainUnlockedKeepsInv(half: nat, s: State, t: nat)
    requires half >= 2 && Inv(half, s) && t < |s.threads|
    requires s.threads[t].RetainLoop? && s.threads[t].seen == s.isa && !s.threads[t].try && !s.threads[t].locked
    requires !IsDeallocating(s.isa) && s.isa.extraRc + 1 < 2 * half
    ensures Inv(half, Go1(half, s, t, false))
  {
    RetainInlineStep(half, s, t);
    assert Local(half, s, s.threads[t]);
    ReturnInv(half, s, s.isa.(extraRc := s.isa.extraRc + 1), s.lock, t, Retained);
  }

  lemma RetainInlineStep(half: nat, s: State, t: nat)
    requires t < |s.threads|
    requires s.threads[t].RetainLoop? && s.threads[t].seen == s.isa && !s.threads[t].try && !s.threads[t].locked
    requires !IsDeallocating(s.isa) && s.isa.extraRc + 1 < 2 * half
    ensures Go1(half, s, t, false) == Return(s.(isa := s.isa.(extraRc := s.isa.extraRc + 1)), t, Retained)
  {
  }

  lemma RetainSpillKeepsInv(half: nat, s: State, t: nat, spurious: bool)
    requires half >= 2 && Inv(half, s) && t < |s.threads|
    requires s.threads[t].RetainLoop? && s.threads[t].seen.extraRc + 1 >= 2 * half
    ensures Inv(half, Go1(half, s, t, spurious))
  {
    var RetainLoop(try, full, seen, locked) := s.threads[t];
    assert Local(half, s, s.threads[t]);
    if !full {
      MoveInv(half, s, s.isa, s.side, s.lock, t, RetainLoop(try, true, s.isa, false));
    } else if !try && !locked {
      if s.lock.Free? {
        MoveInv(half, s, s.isa, s.side, HeldBy(t), t, RetainLoop(try, full, seen, true));
      }
    } else if s.isa == seen && !spurious {
      MoveInv(half, s, seen.(extraRc := half, hasSidetableRc := true), s.side, s.lock, t, RetainAdd(try));
    } else {
      MoveInv(half, s, s.isa, s.side, s.lock, t, RetainLoop(try, full, s.isa, true));
    }
  }

  lemma ModAdd(half: nat, side: nat)
    requires half > 0 && side % half == 0
    ensures (side + half) % half == 0
    ensures side >= half ==> (side - half) % half == 0
    ensures 0 < side ==> side >= half
  {
    var q := side / half;
    Bits.DivUnique(side + half, half, q + 1, 0);
    if side >= half { Bits.DivUnique(side - half, half, q - 1, 0); }
  }

  lemma RetainAddKeepsInv(half: nat, s: State, t: nat, spurious: bool)
    requires half >= 2 && Inv(half, s) && t < |s.threads| && s.threads[t].RetainAdd?
    ensures Inv(half, Go1(half, s, t, spurious))
  {
    ModAdd(half, s.side);
    MoveInv(half, s, s.isa, s.side + half, s.lock, t,
            if s.threads[t].try then TryDone(Retained) else Unlocking(Retained));
  }

  lemma ReleaseDirectKeepsInv(half: nat, s: State, t: nat, spurious: bool)
    requires half >= 2 && Inv(half, s) && t < |s.threads|
    requires s.threads[t].ReleaseLoop?
    requires IsDeallocating(s.threads[t].seen) || s.threads[t].seen.extraRc > 0
    ensures Inv(half, Go1(half, s, t, spurious))
  {
    var ReleaseLoop(full, seen, locked) := s.threads[t];
    assert Local(half, s, s.threads[t]);
    if IsDeallocating(seen) {
      ReturnInv(half, s, s.isa, if locked then Free else s.lock, t, ReleasedDead);
    } else if s.isa != seen || spurious {
      MoveInv(half, s, s.isa, s.side, s.lock, t, ReleaseLoop(full, s.isa, locked));
    } else {
      ReleaseSwapKeepsInv(half, s, t);
    }
  }

  /** The exchange that takes one from the inline count. */
  lemma ReleaseSwapKeepsInv(half: nat, s: State, t: nat)
    requires half >= 2 && Inv(half, s) && t < |s.threads|
    requires s.threads[t].ReleaseLoop? && s.threads[t].seen == s.isa
    requires !IsDeallocating(s.isa) && s.isa.extraRc > 0
    ensures Inv(half, Go1(half, s, t, false))
  {
    if s.threads[t].locked { ReleaseLockedKeepsInv(half, s, t); } else { ReleaseUnlockedKeepsInv(half, s, t); }
  }

  lemma ReleaseLockedKeepsInv(half: nat, s: State, t: nat)
    requires half >= 2 && Inv(half, s) && t < |s.threads|
    requires s.threads[t].ReleaseLoop? && s.threads[t].seen == s.isa && s.threads[t].locked
    requires !IsDeallocating(s.isa) && s.isa.extraRc > 0
    ensures Inv(half, Go1(half, s, t, false))
  {
    assert Local(half, s, s.threads[t]);
    var isa' := s.isa.(extraRc := s.isa.extraRc - 1);
    MoveInv(half, s, isa', s.side, s.lock, t, Unlocking(if IsDeallocating(isa') then ReportedDealloc else Released));
  }

  lemma ReleaseUnlockedKeepsInv(half: nat, s: State, t: nat)
    requires half >= 2 && Inv(half, s) && t < |s.threads|
    requires s.threads[t].ReleaseLoop? && s.threads[t].seen == s.isa && !s.threads[t].locked
    requires !IsDeallocating(s.isa) && s.isa.extraRc > 0
    ensures Inv(half, Go1(half, s, t, false))
  {
    assert Local(half, s, s.threads[t]);
    var isa' := s.isa.(extraRc := s.isa.extraRc - 1);
    ReturnInv(half, s, isa', s.lock, t, if IsDeallocating(isa') then ReportedDealloc else Released);
  }

  /** A release that finds the inline count empty, holding the lock, always
      gets exactly half a range back from the side table. */
  lemma ReleaseBorrowKeepsInv(half: nat, s: State, t: nat, spurious: bool)
    requires half >= 2 && Inv(half, s) && t < |s.threads|
    requires s.threads[t].ReleaseLoop?
    requires s.threads[t].seen.extraRc == 0 && s.threads[t].seen.hasSidetableRc
    ensures Inv(half, Go1(half, s, t, spurious))
  {
    var ReleaseLoop(full, seen, locked) := s.threads[t];
    assert Local(half, s, s.threads[t]);
    if !full {
      MoveInv(half, s, s.isa, s.side, s.lock, t, ReleaseLoop(true, s.isa, false));
    } else if !locked {
      if s.lock.Free? { MoveInv(half, s, s.isa, s.side, HeldBy(t), t, ReleaseReload); }
    } else {
      ModAdd(half, s.side);
      assert s.side > 0;
      MoveInv(half, s, s.isa, s.side - half, s.lock, t, BorrowFirst(seen, half, s.side - half == 0));
    }
  }

  lemma BorrowFirstKeepsInv(half: nat, s: State, t: nat, spurious: bool)
    requires half >= 2 && Inv(half, s) && t < |s.threads| && s.threads[t].BorrowFirst?
    ensures Inv(half, Go1(half, s, t, spurious))
  {
    assert Local(half, s, s.threads[t]);
    var BorrowFirst(seen, b, emptied) := s.threads[t];
    if s.isa == seen && !spurious {
      MoveInv(half, s, seen.(extraRc := b - 1, hasSidetableRc := !emptied), s.side, s.lock, t,
              BorrowStored(emptied, false));
    } else {
      MoveInv(half, s, s.isa, s.side, s.lock, t, BorrowSecond(s.isa, b, emptied));
    }
  }

  lemma BorrowSecondKeepsInv(half: nat, s: State, t: nat, spurious: bool)
    requires half >= 2 && Inv(half, s) && t < |s.threads| && s.threads[t].BorrowSecond?
    ensures Inv(half, Go1(half, s, t, spurious))
  {
    assert Local(half, s, s.threads[t]);
    var BorrowSecond(seen, b, emptied) := s.threads[t];
    if seen.extraRc + b - 1 < 2 * half && s.isa == seen && !spurious {
      MoveInv(half, s, seen.(extraRc := seen.extraRc + b - 1, hasSidetableRc := !emptied), s.side, s.lock, t,
              BorrowStored(emptied, false));
    } else {
      MoveInv(half, s, s.isa, s.side, s.lock, t, BorrowPutBack(b));
    }
  }

  lemma BorrowPutBackKeepsInv(half: nat, s: State, t: nat, spurious: bool)
    requires half >= 2 && Inv(half, s) && t < |s.threads| && s.threads[t].BorrowPutBack?
    ensures Inv(half, Go1(half, s, t, spurious))
  {
    assert Local(half, s, s.threads[t]);
    ModAdd(half, s.side);
    MoveInv(half, s, s.isa, s.side + s.threads[t].borrowed, s.lock, t, ReleaseReload);
  }

  lemma BorrowStoredKeepsInv(half: nat, s: State, t: nat, spurious: bool)
    requires half >= 2 && Inv(half, s) && t < |s.threads| && s.threads[t].BorrowStored?
    ensures Inv(half, Go1(half, s, t, spurious))
  {
    assert Local(half, s, s.threads[t]);
    MoveInv(half, s, s.isa, s.side, s.lock, t, Unlocking(Released));
  }

  lemma ReloadKeepsInv(half: nat, s: State, t: nat, spurious: bool)
    requires half >= 2 && Inv(half, s) && t < |s.threads| && s.threads[t].ReleaseReload?
    ensures Inv(half, Go1(half, s, t, spurious))
  {
    assert Local(half, s, s.threads[t]);
    MoveInv(half, s, s.isa, s.side, s.lock, t, ReleaseLoop(true, s.isa, true));
  }

  lemma CountLockedKeepsInv(half: nat, s: State, t: nat, spurious: bool)
    requires half >= 2 && Inv(half, s) && t < |s.threads| && s.threads[t].CountLocked?
    ensures Inv(half, Go1(half, s, t, spurious))
  {
    assert Local(half, s, s.threads[t]);
    MoveInv(half, s, s.isa, s.side, s.lock, t, CountLoaded(s.isa, Total(s)));
  }

  lemma CountLoadedKeepsInv(half: nat, s: State, t: nat, spurious: bool)
    requires half >= 2 && Inv(half, s) && t < |s.threads| && s.threads[t].CountLoaded?
    ensures Inv(half, Go1(half, s, t, spurious))
  {
    var atLoad := s.threads[t].atLoad;
    CountedRight(half, s, t);
    MoveInv(half, s, s.isa, s.side, s.lock, t, Unlocking(Count(atLoad, atLoad)));
  }

  lemma CountedRight(half: nat, s: State, t: nat)
    requires LocalInv(half, s) && t < |s.threads| && s.threads[t].CountLoaded?
    ensures Go1(half, s, t, false) == Go1(half, s, t, true)
            == At(s, t, Unlocking(Count(s.threads[t].atLoad, s.threads[t].atLoad)))
  {
    assert Local(half, s, s.threads[t]);
  }

  lemma AssocKeepsInv(half: nat, s: State, t: nat, spurious: bool)
    requires half >= 2 && Inv(half, s) && t < |s.threads| && s.threads[t].AssocLoop?
    ensures Inv(half, Go1(half, s, t, spurious))
  {
    var seen := s.threads[t].seen;
    if seen.hasAssoc {
      MoveInv(half, s, s.isa, s.side, s.lock, t, Idle);
    } else if s.isa == seen && !spurious {
      MoveInv(half, s, seen.(hasAssoc := true), s.side, s.lock, t, Idle);
    } else {
      MoveInv(half, s, s.isa, s.side, s.lock, t, AssocLoop(s.isa));
    }
  }

  lemma WeakKeepsInv(half: nat, s: State, t: nat, spurious: bool)
    requires half >= 2 && Inv(half, s) && t < |s.threads| && s.threads[t].WeakLoop?
    ensures Inv(half, Go1(half, s, t, spurious))
  {
    var seen := s.threads[t].seen;
    if seen.weaklyReferenced {
      MoveInv(half, s, s.isa, s.side, s.lock, t, CallerLocked);
    } else if s.isa == seen && !spurious {
      MoveInv(half, s, seen.(weaklyReferenced := true), s.side, s.lock, t, CallerLocked);
    } else {
      MoveInv(half, s, s.isa, s.side, s.lock, t, WeakLoop(s.isa));
    }
  }

  lemma UnlockKeepsInv(half: nat, s: State, t: nat, spurious: bool)
    requires half >= 2 && Inv(half, s) && t < |s.threads|
    requires s.threads[t].Unlocking? || s.threads[t].TryDone?
    ensures Inv(half, Go1(half, s, t, spurious))
  {
    assert Local(half, s, s.threads[t]);
    if s.lock == HeldBy(t) {
      ReturnInv(half, s, s.isa, Free, t, s.threads[t].outcome);
    } else {
      var s' := s.(trapped := true);
      assert Total(s') == Total(s) && DeallocReports(s') == DeallocReports(s);
      forall u | 0 <= u < |s'.threads| ensures Local(half, s', s'.threads[u]) {
        assert Local(half, s, s.threads[u]);
      }
    }
  }

  lemma GoKeepsInv(half: nat, s: State, t: nat, spurious: bool)
    requires half >= 2 && Inv(half, s) && t < |s.threads|
    ensures Inv(half, Go1(half, s, t, spurious))
  {
    assert Local(half, s, s.threads[t]);
    match s.threads[t]
    case Idle =>
    case CallerLocked =>
    case RetainLoop(_, _, seen, _) =>
      if IsDeallocating(seen) { RetainDeadKeepsInv(half, s, t, spurious); }
      else if seen.extraRc + 1 < 2 * half { RetainInlineKeepsInv(half, s, t, spurious); }
      else { RetainSpillKeepsInv(half, s, t, spurious); }
    case RetainAdd(_) => RetainAddKeepsInv(half, s, t, spurious);
    case ReleaseLoop(_, seen, _) =>
      if IsDeallocating(seen) || seen.extraRc > 0 { ReleaseDirectKeepsInv(half, s, t, spurious); }
      else { ReleaseBorrowKeepsInv(half, s, t, spurious); }
    case ReleaseReload => ReloadKeepsInv(half, s, t, spurious);
    case BorrowFirst(_, _, _) => BorrowFirstKeepsInv(half, s, t, spurious);
    case BorrowSecond(_, _, _) => BorrowSecondKeepsInv(half, s, t, spurious);
    case BorrowPutBack(_) => BorrowPutBackKeepsInv(half, s, t, spurious);
    case BorrowStored(_, _) => BorrowStoredKeepsInv(half, s, t, spurious);
    case CountLocked => CountLockedKeepsInv(half, s, t, spurious);
    case CountLoaded(_, _) => CountLoadedKeepsInv(half, s, t, spurious);
    case AssocLoop(_) => AssocKeepsInv(half, s, t, spurious);
    case WeakLoop(_) => WeakKeepsInv(half, s, t, spurious);
    case Unlocking(_) => UnlockKeepsInv(half, s, t, spurious);
    case TryDone(_) => UnlockKeepsInv(half, s, t, spurious);
    case EmptyAfterAll =>
  }

  lemma StartKeepsInv(half: nat, s: State, t: nat, pc: Pc)
    requires half >= 2 && Inv(half, s) && t < |s.threads| && s.threads[t].Idle?
    requires s.isa.extraRc < 2 * half
    requires || pc == CountLocked || pc == CallerLocked || pc == AssocLoop(s.isa)
             || (pc.RetainLoop? && !pc.try && !pc.locked && pc.seen == s.isa)
             || (pc.ReleaseLoop? && !pc.locked && pc.seen == s.isa)
    ensures !Holds(pc) ==> Inv(half, At(s, t, pc))
    ensures Holds(pc) && s.lock.Free? ==> Inv(half, At(s, t, pc).(lock := HeldBy(t)))
  {
    if !Holds(pc) {
      MoveInv(half, s, s.isa, s.side, s.lock, t, pc);
    } else if s.lock.Free? {
      MoveInv(half, s, s.isa, s.side, HeldBy(t), t, pc);
    }
  }

  lemma StartLockedKeepsInv(half: nat, s: State, t: nat, pc: Pc)
    requires half >= 2 && Inv(half, s) && t < |s.threads| && s.threads[t].CallerLocked?
    requires pc == WeakLoop(s.isa) || pc == Idle || (pc.RetainLoop? && pc.try && !pc.locked && pc.seen == s.isa)
    ensures pc != Idle ==> Inv(half, At(s, t, pc))
    ensures pc == Idle ==> Inv(half, At(s, t, pc).(lock := Free))
  {
    MoveInv(half, s, s.isa, s.side, if pc == Idle then Free else s.lock, t, pc);
  }

  lemma StepKeepsInv(half: nat, s: State, m: Move)
    requires half >= 2 && Inv(half, s)
    ensures Inv(half, Step(half, s, m))
  {
    var t := m.thread;
    if !s.trapped && t < |s.threads| {
      match m.choice
      case Go(spurious) => GoKeepsInv(half, s, t, spurious);
      case StartTry(full) =>
        if s.threads[t].CallerLocked? { StartLockedKeepsInv(half, s, t, RetainLoop(true, full, s.isa, false)); }
      case StartWeak => if s.threads[t].CallerLocked? { StartLockedKeepsInv(half, s, t, WeakLoop(s.isa)); }
      case DropLock => if s.threads[t].CallerLocked? { StartLockedKeepsInv(half, s, t, Idle); }
      case _ => if s.threads[t].Idle? { IdleStartKeepsInv(half, s, m); }
    }
  }

  lemma IdleStartKeepsInv(half: nat, s: State, m: Move)
    requires half >= 2 && Inv(half, s) && !s.trapped && m.thread < |s.threads| && s.threads[m.thread].Idle?
    requires m.choice.StartRetain? || m.choice.StartRelease? || m.choice.StartCount? || m.choice.StartAssoc?
             || m.choice.TakeLock?
    ensures Inv(half, Step(half, s, m))
  {
    var t := m.thread;
    match m.choice
    case StartRetain(full) => StartKeepsInv(half, s, t, RetainLoop(false, full, s.isa, false));
    case StartRelease(full) => StartKeepsInv(half, s, t, ReleaseLoop(full, s.isa, false));
    case StartCount => StartKeepsInv(half, s, t, CountLocked);
    case StartAssoc => StartKeepsInv(half, s, t, AssocLoop(s.isa));
    case TakeLock => StartKeepsInv(half, s, t, CallerLocked);
  }
}
