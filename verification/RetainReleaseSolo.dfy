/** Calls of the retain/release protocol that nobody disturbs: from any state in
    which the lock is free, a call ends after a few turns of its thread, having
    done exactly what it is for. */
module RetainReleaseSolo {
  import opened RetainRelease
  import opened RetainReleaseProofs
  import opened RetainReleaseTheorems

  function Gos(t: nat, k: nat): seq<Move> { seq(k, _ => Move(t, Go(false))) }

  /** Thread t starts a call and has k turns, one after the other. */
  function Solo(half: nat, s: State, t: nat, c: Choice, k: nat): State
    decreases k
  {
    if k == 0 then Step(half, s, Move(t, c)) else Step(half, Solo(half, s, t, c, k - 1), Move(t, Go(false)))
  }

  /** That is a run. */
  lemma {:induction false} SoloIsRun(half: nat, s: State, t: nat, c: Choice, k: nat)
    ensures Solo(half, s, t, c, k) == Run(half, s, [Move(t, c)] + Gos(t, k))
    decreases k
  {
    if k == 0 {
      assert [Move(t, c)] + Gos(t, 0) == [] + [Move(t, c)];
      RunSnoc(half, s, [], Move(t, c));
    } else {
      SoloIsRun(half, s, t, c, k - 1);
      assert [Move(t, c)] + Gos(t, k) == ([Move(t, c)] + Gos(t, k - 1)) + [Move(t, Go(false))];
      RunSnoc(half, s, [Move(t, c)] + Gos(t, k - 1), Move(t, Go(false)));
    }
  }

  /** Turns of a thread that is done change nothing. */
  lemma {:induction false} SoloRests(half: nat, s: State, t: nat, c: Choice, j: nat, k: nat)
    requires j <= k && t < |Solo(half, s, t, c, j).threads| && Solo(half, s, t, c, j).threads[t].Idle?
    ensures Solo(half, s, t, c, k) == Solo(half, s, t, c, j)
  {
    if j < k {
      SoloRests(half, s, t, c, j, k - 1);
      IdleTurn(half, Solo(half, s, t, c, k - 1), t);
    }
  }

  lemma IdleTurn(half: nat, s: State, t: nat)
    requires t < |s.threads| && s.threads[t].Idle?
    ensures Step(half, s, Move(t, Go(false))) == s
  {
  }

  /** After k turns thread t is at pc, and everything else is as in b. */
  ghost predicate Stands(half: nat, s: State, t: nat, c: Choice, k: nat, b: State, pc: Pc) {
    t < |b.threads| && !b.trapped && Solo(half, s, t, c, k) == At(b, t, pc)
  }

  lemma Turn(half: nat, s: State, t: nat, c: Choice, k: nat, b: State, pc: Pc, next: Pc)
    requires Stands(half, s, t, c, k, b, pc)
    ensures Solo(half, s, t, c, k + 1) == Go1(half, At(b, t, pc), t, false)
    ensures b.threads[t := pc][t := next] == b.threads[t := next]
  {
  }

  // One turn each.

  lemma Widens(half: nat, s: State, t: nat, c: Choice, k: nat, b: State, try: bool)
    requires Stands(half, s, t, c, k, b, RetainLoop(try, false, b.isa, false))
    requires b.isa.extraRc + 1 >= 2 * half > 0
    ensures Stands(half, s, t, c, k + 1, b, RetainLoop(try, true, b.isa, false))
  {
    Turn(half, s, t, c, k, b, RetainLoop(try, false, b.isa, false), RetainLoop(try, true, b.isa, false));
    WidenGo(half, b, t, try);
  }

  lemma WidenGo(half: nat, b: State, t: nat, try: bool)
    requires t < |b.threads| && b.isa.extraRc + 1 >= 2 * half > 0
    ensures Go1(half, At(b, t, RetainLoop(try, false, b.isa, false)), t, false)
            == At(b, t, RetainLoop(try, true, b.isa, false))
  {
  }

  lemma AddsInline(half: nat, s: State, t: nat, c: Choice, k: nat, b: State, try: bool, full: bool)
    requires Stands(half, s, t, c, k, b, RetainLoop(try, full, b.isa, false))
    requires !IsDeallocating(b.isa) && b.isa.extraRc + 1 < 2 * half
    ensures var b' := b.(isa := b.isa.(extraRc := b.isa.extraRc + 1));
            if try then Stands(half, s, t, c, k + 1, b', TryDone(Retained))
            else Solo(half, s, t, c, k + 1) == Return(b', t, Retained)
  {
    Turn(half, s, t, c, k, b, RetainLoop(try, full, b.isa, false), if try then TryDone(Retained) else Idle);
  }

  lemma Refuses(half: nat, s: State, t: nat, c: Choice, k: nat, b: State, try: bool, full: bool)
    requires Stands(half, s, t, c, k, b, RetainLoop(try, full, b.isa, false)) && IsDeallocating(b.isa)
    ensures if try then Stands(half, s, t, c, k + 1, b, TryDone(TryFailed))
            else Solo(half, s, t, c, k + 1) == Return(b, t, RetainedDead)
  {
    Turn(half, s, t, c, k, b, RetainLoop(try, full, b.isa, false), if try then TryDone(TryFailed) else Idle);
  }

  lemma Locks(half: nat, s: State, t: nat, c: Choice, k: nat, b: State)
    requires Stands(half, s, t, c, k, b, RetainLoop(false, true, b.isa, false)) && b.lock.Free?
    requires b.isa.extraRc + 1 >= 2 * half > 0
    ensures Stands(half, s, t, c, k + 1, b.(lock := HeldBy(t)), RetainLoop(false, true, b.isa, true))
  {
    Turn(half, s, t, c, k, b, RetainLoop(false, true, b.isa, false), RetainLoop(false, true, b.isa, true));
  }

  lemma Spills(half: nat, s: State, t: nat, c: Choice, k: nat, b: State, try: bool)
    requires Stands(half, s, t, c, k, b, RetainLoop(try, true, b.isa, !try)) && b.isa.extraRc + 1 >= 2 * half > 0
    ensures Stands(half, s, t, c, k + 1, b.(isa := b.isa.(extraRc := half, hasSidetableRc := true)), RetainAdd(try))
  {
    Turn(half, s, t, c, k, b, RetainLoop(try, true, b.isa, !try), RetainAdd(try));
  }

  lemma Credits(half: nat, s: State, t: nat, c: Choice, k: nat, b: State, try: bool)
    requires Stands(half, s, t, c, k, b, RetainAdd(try))
    ensures Stands(half, s, t, c, k + 1, b.(side := b.side + half),
                   if try then TryDone(Retained) else Unlocking(Retained))
  {
    Turn(half, s, t, c, k, b, RetainAdd(try), if try then TryDone(Retained) else Unlocking(Retained));
  }

  lemma Unlocks(half: nat, s: State, t: nat, c: Choice, k: nat, b: State, o: Outcome, try: bool)
    requires Stands(half, s, t, c, k, b, if try then TryDone(o) else Unlocking(o)) && b.lock == HeldBy(t)
    ensures Solo(half, s, t, c, k + 1) == Return(b.(lock := Free), t, o)
  {
    Turn(half, s, t, c, k, b, if try then TryDone(o) else Unlocking(o), Idle);
  }

  lemma TakesInline(half: nat, s: State, t: nat, c: Choice, k: nat, b: State, full: bool)
    requires Stands(half, s, t, c, k, b, ReleaseLoop(full, b.isa, false)) && b.isa.extraRc > 0
    ensures Solo(half, s, t, c, k + 1)
            == Return(b.(isa := b.isa.(extraRc := b.isa.extraRc - 1)), t,
                      if b.isa.extraRc == 1 && !b.isa.hasSidetableRc then ReportedDealloc else Released)
  {
    Turn(half, s, t, c, k, b, ReleaseLoop(full, b.isa, false), Idle);
  }

  lemma RefusesRelease(half: nat, s: State, t: nat, c: Choice, k: nat, b: State, full: bool)
    requires Stands(half, s, t, c, k, b, ReleaseLoop(full, b.isa, false)) && IsDeallocating(b.isa)
    ensures Solo(half, s, t, c, k + 1) == Return(b, t, ReleasedDead)
  {
    Turn(half, s, t, c, k, b, ReleaseLoop(full, b.isa, false), Idle);
  }

  /** From the end of the inline count to a loop that has the lock. */
  lemma GoesForLock(half: nat, s: State, t: nat, c: Choice, k: nat, b: State, full: bool)
    requires Stands(half, s, t, c, k, b, ReleaseLoop(full, b.isa, false))
    requires b.isa.extraRc == 0 && b.isa.hasSidetableRc && b.lock.Free?
    ensures if full then Stands(half, s, t, c, k + 1, b.(lock := HeldBy(t)), ReleaseReload)
            else Stands(half, s, t, c, k + 1, b, ReleaseLoop(true, b.isa, false))
  {
    Turn(half, s, t, c, k, b, ReleaseLoop(full, b.isa, false),
         if full then ReleaseReload else ReleaseLoop(true, b.isa, false));
  }

  lemma Reloads(half: nat, s: State, t: nat, c: Choice, k: nat, b: State)
    requires Stands(half, s, t, c, k, b, ReleaseReload)
    ensures Stands(half, s, t, c, k + 1, b, ReleaseLoop(true, b.isa, true))
  {
    Turn(half, s, t, c, k, b, ReleaseReload, ReleaseLoop(true, b.isa, true));
  }

  lemma Borrows(half: nat, s: State, t: nat, c: Choice, k: nat, b: State)
    requires Stands(half, s, t, c, k, b, ReleaseLoop(true, b.isa, true))
    requires b.isa.extraRc == 0 && b.isa.hasSidetableRc && b.side >= half > 0
    ensures Stands(half, s, t, c, k + 1, b.(side := b.side - half), BorrowFirst(b.isa, half, b.side == half))
  {
    Turn(half, s, t, c, k, b, ReleaseLoop(true, b.isa, true), BorrowFirst(b.isa, half, b.side == half));
  }

  lemma Stores(half: nat, s: State, t: nat, c: Choice, k: nat, b: State, emptied: bool)
    requires half > 0 && Stands(half, s, t, c, k, b, BorrowFirst(b.isa, half, emptied))
    ensures var b' := b.(isa := b.isa.(extraRc := half - 1, hasSidetableRc := !emptied));
            Stands(half, s, t, c, k + 1, b', BorrowStored(emptied, false))
  {
    Turn(half, s, t, c, k, b, BorrowFirst(b.isa, half, emptied), BorrowStored(emptied, false));
  }

  lemma Clears(half: nat, s: State, t: nat, c: Choice, k: nat, b: State, emptied: bool)
    requires Stands(half, s, t, c, k, b, BorrowStored(emptied, false)) && (emptied ==> b.side == 0)
    ensures Stands(half, s, t, c, k + 1, b, Unlocking(Released))
  {
    Turn(half, s, t, c, k, b, BorrowStored(emptied, false), Unlocking(Released));
  }

  lemma Loads(half: nat, s: State, t: nat, c: Choice, k: nat, b: State, total: int)
    requires Stands(half, s, t, c, k, b, CountLocked) && total == Total(At(b, t, CountLocked))
    ensures Stands(half, s, t, c, k + 1, b, CountLoaded(b.isa, total))
  {
    Turn(half, s, t, c, k, b, CountLocked, CountLoaded(b.isa, total));
  }

  lemma Reads(half: nat, s: State, t: nat, c: Choice, k: nat, b: State, total: int)
    requires Stands(half, s, t, c, k, b, CountLoaded(b.isa, total)) && (b.isa.hasSidetableRc || b.side == 0)
    ensures Stands(half, s, t, c, k + 1, b, Unlocking(Count(b.isa.extraRc + b.side, total)))
  {
    Turn(half, s, t, c, k, b, CountLoaded(b.isa, total), Unlocking(Count(b.isa.extraRc + b.side, total)));
    ReadGo(half, b, t, total);
  }

  lemma ReadGo(half: nat, b: State, t: nat, total: int)
    requires t < |b.threads| && (b.isa.hasSidetableRc || b.side == 0)
    ensures Go1(half, At(b, t, CountLoaded(b.isa, total)), t, false)
            == At(b, t, Unlocking(Count(b.isa.extraRc + b.side, total)))
  {
  }

  // -------------------------------------------------------------- whole calls

  predicate Ready(half: nat, s: State, t: nat) {
    half >= 2 && !s.trapped && t < |s.threads| && s.threads[t].Idle? && s.lock.Free?
  }

  /** The caller of tryRetain holds the lock. */
  predicate ReadyToTry(half: nat, s: State, t: nat) {
    half >= 2 && !s.trapped && t < |s.threads| && s.threads[t].CallerLocked? && s.lock == HeldBy(t)
  }

  lemma Starts(half: nat, s: State, t: nat, full: bool)
    ensures Ready(half, s, t) ==>
              && Stands(half, s, t, StartRetain(full), 0, s, RetainLoop(false, full, s.isa, false))
              && Stands(half, s, t, StartRelease(full), 0, s, ReleaseLoop(full, s.isa, false))
              && Stands(half, s, t, StartCount, 0, s.(lock := HeldBy(t)), CountLocked)
    ensures ReadyToTry(half, s, t) ==>
              Stands(half, s, t, StartTry(full), 0, s, RetainLoop(true, full, s.isa, false))
  {
  }

  /** The state after the call: thread t idle and the lock free. */
  function Done(s: State, t: nat, isa: Isa, side: nat, o: Outcome): State
    requires t < |s.threads|
  {
    Return(s.(isa := isa, side := side, lock := Free), t, o)
  }

  /** The word and the counter after a retain of a live object. */
  function Raised(half: nat, s: State): (Isa, nat) {
    if s.isa.extraRc + 1 < 2 * half then (s.isa.(extraRc := s.isa.extraRc + 1), s.side)
    else (s.isa.(extraRc := half, hasSidetableRc := true), s.side + half)
  }

  lemma RetainShort(half: nat, s: State, t: nat, full: bool)
    requires Ready(half, s, t)
    ensures IsDeallocating(s.isa) ==>
              Solo(half, s, t, StartRetain(full), 1) == Done(s, t, s.isa, s.side, RetainedDead)
    ensures !IsDeallocating(s.isa) && s.isa.extraRc + 1 < 2 * half ==>
              Solo(half, s, t, StartRetain(full), 1) == Done(s, t, Raised(half, s).0, Raised(half, s).1, Retained)
  {
    Starts(half, s, t, full);
    if IsDeallocating(s.isa) {
      Refuses(half, s, t, StartRetain(full), 0, s, false, full);
    } else if s.isa.extraRc + 1 < 2 * half {
      AddsInline(half, s, t, StartRetain(full), 0, s, false, full);
    }
  }

  lemma RetainLong(half: nat, s: State, t: nat, full: bool)
    requires Ready(half, s, t) && s.isa.extraRc + 1 >= 2 * half
    ensures Solo(half, s, t, StartRetain(full), if full then 4 else 5)
            == Done(s, t, Raised(half, s).0, Raised(half, s).1, Retained)
  {
    var c, k := StartRetain(full), if full then 0 else 1;
    Starts(half, s, t, full);
    if !full { Widens(half, s, t, c, 0, s, false); }
    var h := s.(lock := HeldBy(t));
    var h' := h.(isa := Raised(half, s).0);
    Locks(half, s, t, c, k, s);
    Spills(half, s, t, c, k + 1, h, false);
    Credits(half, s, t, c, k + 2, h', false);
    Unlocks(half, s, t, c, k + 3, h'.(side := s.side + half), Retained, false);
  }

  lemma TryShort(half: nat, s: State, t: nat, full: bool)
    requires ReadyToTry(half, s, t)
    ensures IsDeallocating(s.isa) ==> Solo(half, s, t, StartTry(full), 2) == Done(s, t, s.isa, s.side, TryFailed)
    ensures !IsDeallocating(s.isa) && s.isa.extraRc + 1 < 2 * half ==>
              Solo(half, s, t, StartTry(full), 2) == Done(s, t, Raised(half, s).0, Raised(half, s).1, Retained)
  {
    var c := StartTry(full);
    Starts(half, s, t, full);
    if IsDeallocating(s.isa) {
      Refuses(half, s, t, c, 0, s, true, full);
      Unlocks(half, s, t, c, 1, s, TryFailed, true);
    } else if s.isa.extraRc + 1 < 2 * half {
      AddsInline(half, s, t, c, 0, s, true, full);
      Unlocks(half, s, t, c, 1, s.(isa := Raised(half, s).0), Retained, true);
    }
  }

  lemma TryLong(half: nat, s: State, t: nat, full: bool)
    requires ReadyToTry(half, s, t) && s.isa.extraRc + 1 >= 2 * half
    ensures Solo(half, s, t, StartTry(full), if full then 3 else 4)
            == Done(s, t, Raised(half, s).0, Raised(half, s).1, Retained)
  {
    var c, k := StartTry(full), if full then 0 else 1;
    Starts(half, s, t, full);
    if !full { Widens(half, s, t, c, 0, s, true); }
    var s' := s.(isa := Raised(half, s).0);
    Spills(half, s, t, c, k, s, true);
    Credits(half, s, t, c, k + 1, s', true);
    Unlocks(half, s, t, c, k + 2, s'.(side := s.side + half), Retained, true);
  }

  lemma ReleaseShort(half: nat, s: State, t: nat, full: bool)
    requires Ready(half, s, t)
    ensures IsDeallocating(s.isa) ==>
              Solo(half, s, t, StartRelease(full), 1) == Done(s, t, s.isa, s.side, ReleasedDead)
    ensures s.isa.extraRc > 0 ==>
              Solo(half, s, t, StartRelease(full), 1)
              == Done(s, t, s.isa.(extraRc := s.isa.extraRc - 1), s.side,
                      if s.isa.extraRc == 1 && !s.isa.hasSidetableRc then ReportedDealloc else Released)
  {
    Starts(half, s, t, full);
    if IsDeallocating(s.isa) {
      RefusesRelease(half, s, t, StartRelease(full), 0, s, full);
    } else if s.isa.extraRc > 0 {
      TakesInline(half, s, t, StartRelease(full), 0, s, full);
    }
  }

  lemma ReleaseLong(half: nat, s: State, t: nat, full: bool)
    requires Ready(half, s, t) && s.isa.extraRc == 0 && s.isa.hasSidetableRc && s.side >= half
    ensures Solo(half, s, t, StartRelease(full), if full then 6 else 7)
            == Done(s, t, s.isa.(extraRc := half - 1, hasSidetableRc := s.side > half), s.side - half, Released)
  {
    var c, k := StartRelease(full), if full then 0 else 1;
    Starts(half, s, t, full);
    if !full { GoesForLock(half, s, t, c, 0, s, false); }
    var h := s.(lock := HeldBy(t));
    var h' := h.(side := s.side - half);
    var h'' := h'.(isa := s.isa.(extraRc := half - 1, hasSidetableRc := s.side > half));
    GoesForLock(half, s, t, c, k, s, true);
    Reloads(half, s, t, c, k + 1, h);
    Borrows(half, s, t, c, k + 2, h);
    Stores(half, s, t, c, k + 3, h', s.side == half);
    Clears(half, s, t, c, k + 4, h'', s.side == half);
    Unlocks(half, s, t, c, k + 5, h'', Released, false);
  }

  /** The counts of the object moved by d; of its other bits, only the flag of
      the side table may have changed. */
  predicate Counted(s: State, s': State, d: int) {
    && s'.isa.extraRc + s'.side == s.isa.extraRc + s.side + d
    && s'.isa == s.isa.(extraRc := s'.isa.extraRc, hasSidetableRc := s'.isa.hasSidetableRc)
  }

  /** Thread t is done, the lock is free, and outcome o has joined the log. */
  predicate Ended(s: State, s': State, t: nat, o: Outcome) {
    t < |s.threads| && s'.threads == s.threads[t := Idle] && s'.lock.Free? && s'.log == s.log + [o] && !s'.trapped
  }

  lemma RetainEnds(half: nat, s: State, t: nat, full: bool, k: nat)
    requires k >= 5 && Ready(half, s, t)
    ensures var s' := Solo(half, s, t, StartRetain(full), k);
            var dead := IsDeallocating(s.isa);
            s.isa.extraRc < 2 * half ==>
              Counted(s, s', if dead then 0 else 1) && Ended(s, s', t, if dead then RetainedDead else Retained)
  {
    if IsDeallocating(s.isa) || s.isa.extraRc + 1 < 2 * half {
      RetainShort(half, s, t, full);
      SoloRests(half, s, t, StartRetain(full), 1, k);
    } else {
      RetainLong(half, s, t, full);
      SoloRests(half, s, t, StartRetain(full), if full then 4 else 5, k);
    }
  }

  lemma TryEnds(half: nat, s: State, t: nat, full: bool, k: nat)
    requires k >= 4 && ReadyToTry(half, s, t)
    ensures var s' := Solo(half, s, t, StartTry(full), k);
            var dead := IsDeallocating(s.isa);
            s.isa.extraRc < 2 * half ==>
              Counted(s, s', if dead then 0 else 1) && Ended(s, s', t, if dead then TryFailed else Retained)
  {
    if IsDeallocating(s.isa) || s.isa.extraRc + 1 < 2 * half {
      TryShort(half, s, t, full);
      SoloRests(half, s, t, StartTry(full), 2, k);
    } else {
      TryLong(half, s, t, full);
      SoloRests(half, s, t, StartTry(full), if full then 3 else 4, k);
    }
  }

  /** What a release answers when so many references are left. */
  function ReleaseOutcome(count: nat): Outcome {
    if count == 0 then ReleasedDead else if count == 1 then ReportedDealloc else Released
  }

  lemma ReleaseEnds(half: nat, s: State, t: nat, full: bool, k: nat)
    requires k >= 7 && Ready(half, s, t) && if s.isa.hasSidetableRc then s.side >= half else s.side == 0
    ensures var s' := Solo(half, s, t, StartRelease(full), k);
            && Counted(s, s', if IsDeallocating(s.isa) then 0 else -1)
            && Ended(s, s', t, ReleaseOutcome(s.isa.extraRc + s.side))
  {
    if IsDeallocating(s.isa) || s.isa.extraRc > 0 {
      ReleaseShort(half, s, t, full);
      SoloRests(half, s, t, StartRelease(full), 1, k);
    } else {
      ReleaseLong(half, s, t, full);
      SoloRests(half, s, t, StartRelease(full), if full then 6 else 7, k);
    }
  }

  lemma CountEnds(half: nat, s: State, t: nat, o: Outcome, k: nat)
    requires k >= 3 && Ready(half, s, t) && (s.isa.hasSidetableRc || s.side == 0)
    requires o == Count(s.isa.extraRc + s.side, Total(s))
    ensures Solo(half, s, t, StartCount, k) == Done(s, t, s.isa, s.side, o)
  {
    var h := s.(lock := HeldBy(t));
    Starts(half, s, t, true);
    LoadedTotal(s, t);
    Loads(half, s, t, StartCount, 0, h, o.atLoad);
    Reads(half, s, t, StartCount, 1, h, o.atLoad);
    Unlocks(half, s, t, StartCount, 2, h, o, false);
    SoloRests(half, s, t, StartCount, 3, k);
  }

  lemma LoadedTotal(s: State, t: nat)
    requires t < |s.threads| && s.threads[t].Idle?
    ensures Total(At(s.(lock := HeldBy(t)), t, CountLocked)) == Total(s)
  {
    MoveTotals(s, At(s.(lock := HeldBy(t)), t, CountLocked), t, CountLocked);
  }

  lemma AssocEnds(half: nat, s: State, t: nat)
    requires Ready(half, s, t)
    ensures Solo(half, s, t, StartAssoc, 1) == s.(isa := s.isa.(hasAssoc := true))
  {
    Turn(half, s, t, StartAssoc, 0, s, AssocLoop(s.isa), Idle);
    assert s.threads[t := Idle] == s.threads;
  }

  lemma WeakEnds(half: nat, s: State, t: nat)
    requires ReadyToTry(half, s, t)
    ensures Solo(half, s, t, StartWeak, 1) == s.(isa := s.isa.(weaklyReferenced := true))
  {
    Turn(half, s, t, StartWeak, 0, s, WeakLoop(s.isa), CallerLocked);
    assert s.threads[t := CallerLocked] == s.threads;
  }

  // -------------------------------------------------------- in reachable states

  /** What is known of a reachable state. */
  predicate Known(half: nat, s: State) {
    && (IsDeallocating(s.isa) <==> Total(s) == 0) && s.isa.extraRc < 2 * half
    && (s.lock.Free? ==> if s.isa.hasSidetableRc then s.side >= half else s.side == 0)
  }

  lemma RunKnown(half: nat, n: nat, cls: nat, moves: seq<Move>)
    requires half >= 2
    ensures Known(half, Run(half, Init(n, cls), moves))
  {
    RunKeepsInv(half, n, cls, moves);
    InvKnown(half, Run(half, Init(n, cls), moves));
  }

  lemma InvKnown(half: nat, s: State)
    requires half >= 2 && Inv(half, s)
    ensures Known(half, s)
  {
    HalfOrMore(half, s.side);
  }

  lemma HalfOrMore(half: nat, side: nat)
    requires half > 0 && side % half == 0
    ensures side == 0 || side >= half
  {
  }

  /** s is reached by these moves of n threads on a new object. */
  ghost predicate Reached(half: nat, n: nat, cls: nat, moves: seq<Move>, s: State) {
    s == Run(half, Init(n, cls), moves)
  }

  lemma ReachedKnown(half: nat, n: nat, cls: nat, moves: seq<Move>, s: State)
    requires half >= 2 && Reached(half, n, cls, moves, s)
    ensures Known(half, s)
  {
    RunKnown(half, n, cls, moves);
  }

  /** In every reachable state: a retain that nobody disturbs ends within five
      turns, in both variants.  It adds one to the count of a live object and
      reports so; it does nothing to a dead one. */
  lemma RetainAlone(half: nat, n: nat, cls: nat, moves: seq<Move>, s: State, t: nat, full: bool, k: nat)
    requires Ready(half, s, t) && k >= 5 && Reached(half, n, cls, moves, s)
    ensures var s' := Solo(half, s, t, StartRetain(full), k);
            && Counted(s, s', if Total(s) == 0 then 0 else 1)
            && Ended(s, s', t, if Total(s) == 0 then RetainedDead else Retained)
  {
    ReachedKnown(half, n, cls, moves, s);
    RetainEnds(half, s, t, full, k);
  }

  /** tryRetain alike, within four turns; it fails on a dead object. */
  lemma TryAlone(half: nat, n: nat, cls: nat, moves: seq<Move>, s: State, t: nat, full: bool, k: nat)
    requires ReadyToTry(half, s, t) && k >= 4 && Reached(half, n, cls, moves, s)
    ensures var s' := Solo(half, s, t, StartTry(full), k);
            && Counted(s, s', if Total(s) == 0 then 0 else 1)
            && Ended(s, s', t, if Total(s) == 0 then TryFailed else Retained)
  {
    ReachedKnown(half, n, cls, moves, s);
    TryEnds(half, s, t, full, k);
  }

  /** A release, within seven turns: it takes one off, and reports the
      deallocation exactly when it took the last. */
  lemma ReleaseAlone(half: nat, n: nat, cls: nat, moves: seq<Move>, s: State, t: nat, full: bool, k: nat)
    requires Ready(half, s, t) && k >= 7 && Reached(half, n, cls, moves, s)
    ensures var s' := Solo(half, s, t, StartRelease(full), k);
            && Counted(s, s', if Total(s) == 0 then 0 else -1)
            && Ended(s, s', t, ReleaseOutcome(s.isa.extraRc + s.side))
  {
    ReachedKnown(half, n, cls, moves, s);
    ReleaseEnds(half, s, t, full, k);
  }

  /** retainCount takes three turns and answers with the count. */
  lemma CountAlone(half: nat, n: nat, cls: nat, moves: seq<Move>, s: State, t: nat, k: nat)
    requires Ready(half, s, t) && k >= 3 && Reached(half, n, cls, moves, s)
    ensures Solo(half, s, t, StartCount, k)
            == Done(s, t, s.isa, s.side, Count(s.isa.extraRc + s.side, Total(s)))
  {
    ReachedKnown(half, n, cls, moves, s);
    CountEnds(half, s, t, Count(s.isa.extraRc + s.side, Total(s)), k);
  }

  /** The setters of the flags take one turn. */
  lemma FlagsAlone(half: nat, s: State, t: nat)
    ensures Ready(half, s, t) ==> Solo(half, s, t, StartAssoc, 1) == s.(isa := s.isa.(hasAssoc := true))
    ensures ReadyToTry(half, s, t) ==> Solo(half, s, t, StartWeak, 1) == s.(isa := s.isa.(weaklyReferenced := true))
  {
    if Ready(half, s, t) { AssocEnds(half, s, t); }
    if ReadyToTry(half, s, t) { WeakEnds(half, s, t); }
  }
}
