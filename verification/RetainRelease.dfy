/** The retain/release protocol of a non-pointer-isa object, as a state
    machine over interleaved steps of any number of threads.

    One step is one access to shared memory: a load of the isa word, a
    compare-and-swap of it (which may fail spuriously), taking or dropping the
    side-table lock, or one call on the locked side table.  Local computation
    between two accesses belongs to the step that follows it. */
module RetainRelease {

  /** The fields of the isa word.  `cls` stands for the class and magic bits. */
  datatype Isa = Isa(extraRc: nat, hasSidetableRc: bool, hasAssoc: bool, weaklyReferenced: bool, cls: nat)

  predicate IsDeallocating(i: Isa) { i.extraRc == 0 && !i.hasSidetableRc }

  /** What a finished call reports, and what it did to the count. */
  datatype Outcome =
    | Retained                            // counted; returns self (or true)
    | RetainedDead                        // object deallocating: not counted, returns self
    | TryFailed                           // object deallocating: not counted, returns nil
    | Released                            // counted; returns false
    | ReportedDealloc                     // counted; returns true
    | ReleasedDead                        // object deallocating: not counted, returns false
    | Count(result: nat, atLoad: int)     // rootRetainCount; atLoad is the true total when isa was loaded

  type Pos = n: nat | n > 0 witness 1

  /** Where a thread is inside a call.  `seen` is the local oldisa, `locked`
      the local sideTableLocked, `full` whether the variant is Full. */
  datatype Pc =
    | Idle
    | CallerLocked                                        // caller of a _nolock function or of tryRetain
    | RetainLoop(try: bool, full: bool, seen: Isa, locked: bool)
    | RetainAdd(try: bool)                                // spilled half; side table not yet credited
    | ReleaseLoop(full: bool, seen: Isa, locked: bool)
    | ReleaseReload                                       // lock held, about to load isa again
    | BorrowFirst(seen: Isa, borrowed: Pos, emptied: bool)
    | BorrowSecond(seen: Isa, borrowed: Pos, emptied: bool)
    | BorrowPutBack(borrowed: Pos)
    | BorrowStored(emptied: bool, dealloc: bool)
    | EmptyAfterAll                                       // "Side table is empty after all"
    | CountLocked
    | CountLoaded(bits: Isa, atLoad: int)
    | AssocLoop(seen: Isa)
    | WeakLoop(seen: Isa)
    | Unlocking(outcome: Outcome)                         // all done but the unlock
    | TryDone(outcome: Outcome)                           // tryRetain returned; its caller unlocks next

  /** side is the side-table count, lock the holder of the side-table lock,
      log the outcomes of the calls that have returned.  trapped means a thread
      dropped a lock it did not hold, which aborts the process. */
  datatype State = State(isa: Isa, side: nat, lock: Lock, threads: seq<Pc>, log: seq<Outcome>, trapped: bool)

  datatype Lock = Free | HeldBy(owner: nat)

  /** What the scheduler picks for a thread: an idle thread starts a call,
      a running one goes on, perhaps with a compare-and-swap that fails. */
  datatype Choice =
    | StartRetain(full: bool)
    | StartRelease(full: bool)
    | StartCount
    | StartAssoc
    | TakeLock                        // enter a locked region that will call tryRetain or a _nolock function
    | StartTry(full: bool)
    | StartWeak
    | DropLock
    | Go(spurious: bool)

  datatype Move = Move(thread: nat, choice: Choice)

  // ---------------------------------------------------------------- totals

  /** The effect of a finished or committed call on the retain count. */
  function OutcomeWeight(o: Outcome): int {
    match o
    case Retained => 1
    case Released => -1
    case ReportedDealloc => -1
    case _ => 0
  }

  function OutcomeDealloc(o: Outcome): nat { if o.ReportedDealloc? then 1 else 0 }

  /** A call past its committing compare-and-swap already counts. */
  function PcWeight(pc: Pc): int {
    match pc
    case RetainAdd(_) => 1
    case BorrowStored(_, _) => -1
    case Unlocking(o) => OutcomeWeight(o)
    case TryDone(o) => OutcomeWeight(o)
    case _ => 0
  }

  function PcDealloc(pc: Pc): nat {
    match pc
    case BorrowStored(_, d) => if d then 1 else 0
    case Unlocking(o) => OutcomeDealloc(o)
    case TryDone(o) => OutcomeDealloc(o)
    case _ => 0
  }

  function LogWeight(log: seq<Outcome>): int {
    if log == [] then 0 else LogWeight(log[..|log| - 1]) + OutcomeWeight(log[|log| - 1])
  }

  function LogDeallocs(log: seq<Outcome>): nat {
    if log == [] then 0 else LogDeallocs(log[..|log| - 1]) + OutcomeDealloc(log[|log| - 1])
  }

  function ThreadsWeight(ts: seq<Pc>): int {
    if ts == [] then 0 else ThreadsWeight(ts[..|ts| - 1]) + PcWeight(ts[|ts| - 1])
  }

  function ThreadsDeallocs(ts: seq<Pc>): nat {
    if ts == [] then 0 else ThreadsDeallocs(ts[..|ts| - 1]) + PcDealloc(ts[|ts| - 1])
  }

  /** One reference from birth, plus the counted retains, less the counted
      releases. */
  function Total(s: State): int { 1 + LogWeight(s.log) + ThreadsWeight(s.threads) }

  /** How many releases have reported, or are about to report, deallocation. */
  function DeallocReports(s: State): nat { LogDeallocs(s.log) + ThreadsDeallocs(s.threads) }

  /** Retain counts that have left the isa or the side table and not yet
      reached the other. */
  function PcInFlight(half: nat, pc: Pc): nat {
    match pc
    case RetainAdd(_) => half
    case BorrowFirst(_, b, _) => b
    case BorrowSecond(_, b, _) => b
    case BorrowPutBack(b) => b
    case _ => 0
  }

  function InFlight(half: nat, s: State): nat {
    if s.lock.HeldBy? && s.lock.owner < |s.threads| then PcInFlight(half, s.threads[s.lock.owner]) else 0
  }

  // ----------------------------------------------------------------- steps

  function At(s: State, t: nat, pc: Pc): State
    requires t < |s.threads|
  {
    s.(threads := s.threads[t := pc])
  }

  /** The call returns: its outcome joins the log. */
  function Return(s: State, t: nat, o: Outcome): State
    requires t < |s.threads|
  {
    At(s, t, Idle).(log := s.log + [o])
  }

  function Locked(s: State, t: nat, pc: Pc): State
    requires t < |s.threads|
  {
    if s.lock.Free? then At(s, t, pc).(lock := HeldBy(t)) else s
  }

  /** After the commit of a call that may or may not hold the lock. */
  function Leave(s: State, t: nat, locked: bool, o: Outcome): State
    requires t < |s.threads|
  {
    if locked then At(s, t, Unlocking(o)) else Return(s, t, o)
  }

  function StepRetainLoop(half: nat, s: State, t: nat, try: bool, full: bool, seen: Isa, locked: bool, spurious: bool)
    : State
    requires t < |s.threads|
  {
    var stored := s.isa == seen && !spurious;
    if IsDeallocating(seen) then
      var s1 := if locked then s.(lock := Free) else s;
      if try then At(s1, t, TryDone(TryFailed)) else Return(s1, t, RetainedDead)
    else if seen.extraRc + 1 < 2 * half then
      if stored then
        var s1 := s.(isa := seen.(extraRc := seen.extraRc + 1));
        if try then At(s1, t, TryDone(Retained)) else Leave(s1, t, locked, Retained)
      else
        At(s, t, RetainLoop(try, full, s.isa, locked))
    else if !full then
      At(s, t, RetainLoop(try, true, s.isa, false))
    else if !try && !locked then
      Locked(s, t, RetainLoop(try, full, seen, true))
    else if stored then
      At(s.(isa := seen.(extraRc := half, hasSidetableRc := true)), t, RetainAdd(try))
    else
      At(s, t, RetainLoop(try, full, s.isa, true))
  }

  function Min(a: nat, b: nat): nat { if a < b then a else b }

  function StepReleaseLoop(half: nat, s: State, t: nat, full: bool, seen: Isa, locked: bool, spurious: bool): State
    requires t < |s.threads|
  {
    var stored := s.isa == seen && !spurious;
    if IsDeallocating(seen) then
      Return(if locked then s.(lock := Free) else s, t, ReleasedDead)
    else if seen.extraRc > 0 then
      if stored then
        var i := seen.(extraRc := seen.extraRc - 1);
        Leave(s.(isa := i), t, locked, if IsDeallocating(i) then ReportedDealloc else Released)
      else
        At(s, t, ReleaseLoop(full, s.isa, locked))
    else if !full then
      At(s, t, ReleaseLoop(true, s.isa, false))
    else if !locked then
      Locked(s, t, ReleaseReload)
    else
      var b := Min(half, s.side);
      var s1 := s.(side := s.side - b);
      At(s1, t, if b > 0 then BorrowFirst(seen, b, s1.side == 0) else EmptyAfterAll)
  }

  function StepBorrowFirst(s: State, t: nat, seen: Isa, b: Pos, emptied: bool, spurious: bool): State
    requires t < |s.threads|
  {
    if s.isa == seen && !spurious then
      At(s.(isa := seen.(extraRc := b - 1, hasSidetableRc := !emptied)), t, BorrowStored(emptied, false))
    else
      At(s, t, BorrowSecond(s.isa, b, emptied))
  }

  function StepBorrowSecond(half: nat, s: State, t: nat, seen: Isa, b: Pos, emptied: bool, spurious: bool): State
    requires t < |s.threads|
  {
    if seen.extraRc + b - 1 < 2 * half && s.isa == seen && !spurious then
      var i := seen.(extraRc := seen.extraRc + b - 1, hasSidetableRc := !emptied);
      At(s.(isa := i), t, BorrowStored(emptied, IsDeallocating(i)))
    else
      At(s, t, BorrowPutBack(b))
  }

  function Go1(half: nat, s: State, t: nat, spurious: bool): State
    requires t < |s.threads|
  {
    match s.threads[t]
    case Idle => s
    case CallerLocked => s
    case RetainLoop(try, full, seen, locked) => StepRetainLoop(half, s, t, try, full, seen, locked, spurious)
    case RetainAdd(try) =>
      At(s.(side := s.side + half), t, if try then TryDone(Retained) else Unlocking(Retained))
    case ReleaseLoop(full, seen, locked) => StepReleaseLoop(half, s, t, full, seen, locked, spurious)
    case ReleaseReload => At(s, t, ReleaseLoop(true, s.isa, true))
    case BorrowFirst(seen, b, emptied) => StepBorrowFirst(s, t, seen, b, emptied, spurious)
    case BorrowSecond(seen, b, emptied) => StepBorrowSecond(half, s, t, seen, b, emptied, spurious)
    case BorrowPutBack(b) => At(s.(side := s.side + b), t, ReleaseReload)
    case BorrowStored(emptied, d) =>
      At(if emptied then s.(side := 0) else s, t, Unlocking(if d then ReportedDealloc else Released))
    case EmptyAfterAll => At(s, t, Unlocking(ReportedDealloc))
    case CountLocked => At(s, t, CountLoaded(s.isa, Total(s)))
    case CountLoaded(bits, atLoad) =>
      At(s, t, Unlocking(Count(bits.extraRc + (if bits.hasSidetableRc then s.side else 0), atLoad)))
    case AssocLoop(seen) =>
      if seen.hasAssoc then At(s, t, Idle)
      else if s.isa == seen && !spurious then At(s.(isa := seen.(hasAssoc := true)), t, Idle)
      else At(s, t, AssocLoop(s.isa))
    case WeakLoop(seen) =>
      if seen.weaklyReferenced then At(s, t, CallerLocked)
      else if s.isa == seen && !spurious then At(s.(isa := seen.(weaklyReferenced := true)), t, CallerLocked)
      else At(s, t, WeakLoop(s.isa))
    case Unlocking(o) => Return(s.(lock := Free), t, o)
    case TryDone(o) =>
      if s.lock == HeldBy(t) then Return(s.(lock := Free), t, o) else s.(trapped := true)
  }

  /** One move.  A move that does not apply, a thread waiting for the lock and
      a process that has trapped leave the state as it is. */
  function Step(half: nat, s: State, m: Move): State {
    var t := m.thread;
    if s.trapped || t >= |s.threads| then s
    else
      match m.choice
      case Go(spurious) => Go1(half, s, t, spurious)
      case StartRetain(full) => if s.threads[t].Idle? then At(s, t, RetainLoop(false, full, s.isa, false)) else s
      case StartRelease(full) => if s.threads[t].Idle? then At(s, t, ReleaseLoop(full, s.isa, false)) else s
      case StartCount => if s.threads[t].Idle? then Locked(s, t, CountLocked) else s
      case StartAssoc => if s.threads[t].Idle? then At(s, t, AssocLoop(s.isa)) else s
      case TakeLock => if s.threads[t].Idle? then Locked(s, t, CallerLocked) else s
      case StartTry(full) => if s.threads[t].CallerLocked? then At(s, t, RetainLoop(true, full, s.isa, false)) else s
      case StartWeak => if s.threads[t].CallerLocked? then At(s, t, WeakLoop(s.isa)) else s
      case DropLock => if s.threads[t].CallerLocked? then At(s, t, Idle).(lock := Free) else s
  }

  /** initIsa: a new object has extra_rc 1 and nothing in the side table. */
  function Init(threads: nat, cls: nat): State {
    State(Isa(1, false, false, false, cls), 0, Free, seq(threads, _ => Idle), [], false)
  }

  function Run(half: nat, s: State, moves: seq<Move>): State
    decreases |moves|
  {
    if moves == [] then s else Step(half, Run(half, s, moves[..|moves| - 1]), moves[|moves| - 1])
  }

  // ------------------------------------------------------------- invariant

  /** Places where the thread owns the side-table lock. */
  predicate Holds(pc: Pc) {
    match pc
    case CallerLocked => true
    case RetainLoop(try, _, _, locked) => try || locked
    case RetainAdd(_) => true
    case ReleaseLoop(_, _, locked) => locked
    case ReleaseReload => true
    case BorrowFirst(_, _, _) => true
    case BorrowSecond(_, _, _) => true
    case BorrowPutBack(_) => true
    case BorrowStored(_, _) => true
    case EmptyAfterAll => true
    case CountLocked => true
    case CountLoaded(_, _) => true
    case WeakLoop(_) => true
    case Unlocking(_) => true
    case _ => false
  }

  /** What a thread's locals say about the shared state. */
  predicate Local(half: nat, s: State, pc: Pc) {
    match pc
    case RetainLoop(_, full, seen, locked) => seen.extraRc < 2 * half && (locked ==> full)
    case ReleaseLoop(full, seen, locked) =>
      seen.extraRc < 2 * half && (locked ==> full && seen.hasSidetableRc == s.isa.hasSidetableRc)
    case BorrowFirst(seen, b, emptied) =>
      seen.extraRc == 0 && seen.hasSidetableRc && b == half && (emptied <==> s.side == 0)
    case BorrowSecond(seen, b, emptied) =>
      seen.extraRc < 2 * half && seen.hasSidetableRc && b == half && (emptied <==> s.side == 0)
    case BorrowPutBack(b) => b == half
    case BorrowStored(emptied, d) => (emptied ==> s.side == 0) && !d
    case EmptyAfterAll => false
    case CountLoaded(bits, atLoad) =>
      atLoad == bits.extraRc + s.side && (bits.hasSidetableRc <==> s.side > 0)
    case AssocLoop(seen) => seen.extraRc < 2 * half
    case WeakLoop(seen) => seen.extraRc < 2 * half
    case Unlocking(o) =>
      (o.ReportedDealloc? ==> IsDeallocating(s.isa)) && (o.Count? ==> o.result == o.atLoad)
    case TryDone(o) => o.Retained? || o.TryFailed?
    case _ => true
  }

  /** The lock is owned exactly where the code thinks so.  Only the caller of a
      tryRetain that has returned may be wrong about it. */
  ghost predicate LockInv(s: State) {
    && (s.lock.HeldBy? ==>
          && s.lock.owner < |s.threads|
          && (Holds(s.threads[s.lock.owner]) || s.threads[s.lock.owner].TryDone?))
    && (forall t :: 0 <= t < |s.threads| && Holds(s.threads[t]) ==> s.lock == HeldBy(t))
  }

  ghost predicate LocalInv(half: nat, s: State) {
    forall t :: 0 <= t < |s.threads| ==> Local(half, s, s.threads[t])
  }

  predicate LogInv(log: seq<Outcome>) {
    forall i :: 0 <= i < |log| && log[i].Count? ==> log[i].result == log[i].atLoad
  }

  ghost predicate CountInv(half: nat, s: State) {
    && s.isa.extraRc < 2 * half
    && s.side % half == 0
    && (s.isa.hasSidetableRc <==> s.side + InFlight(half, s) > 0)
    && s.isa.extraRc + s.side + InFlight(half, s) == Total(s)
    && DeallocReports(s) == (if IsDeallocating(s.isa) then 1 else 0)
  }

  ghost predicate Inv(half: nat, s: State)
    requires half >= 2
  {
    LockInv(s) && LocalInv(half, s) && LogInv(s.log) && CountInv(half, s)
  }
}
