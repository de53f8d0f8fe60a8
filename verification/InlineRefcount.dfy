/** The inline reference count macro: retain, release with its logic block, and
    _tryRetain, by any number of threads on one object.

    The count ivar is twice the logical count less two; -2 is logical zero, and
    an odd value marks a deallocating object. */
module InlineRefcount {
  datatype Fate = DeallocNow | DeallocLater | Bogus

  /** Where a thread is: in the logic block of the release that reached zero,
      about to mark the object as deallocating, or in the loop of _tryRetain
      with a loaded count. */
  datatype Pc = Idle | Deciding | Marking(fate: Fate) | Trying(prev: int)

  /** rc is the ivar; holds counts the references of all clients; the rest
      records what has happened. */
  datatype State = State(rc: int, pcs: seq<Pc>, holds: nat, marks: nat, deallocs: nat, lateTries: nat, trapped: bool)

  /** Resurrect is the logic block's retain and its answer RESURRECT; Abandon is
      that answer from a logic block that has not retained. */
  datatype Event = Retain | Release | Resurrect | Abandon | Decide(fate: Fate) | Mark | Try | TryAgain

  function Init(threads: nat): State { State(0, seq(threads, _ => Idle), 1, 0, 0, 0, false) }

  function Trap(s: State): State { State(s.rc, s.pcs, s.holds, s.marks, s.deallocs, s.lateTries, true) }

  function At(s: State, t: nat, pc: Pc): State
    requires t < |s.pcs|
  {
    State(s.rc, s.pcs[t := pc], s.holds, s.marks, s.deallocs, s.lateTries, s.trapped)
  }

  function Add(s: State, d: int, holds: nat): State {
    State(s.rc + d, s.pcs, holds, s.marks, s.deallocs, s.lateTries, s.trapped)
  }

  /** The fetch-and-add of retain. */
  function RetainNow(s: State): State {
    var s' := Add(s, 2, s.holds + 1);
    if s.rc < -2 then Trap(s') else s'
  }

  /** The fetch-and-subtract of release, and what its old value leads to. */
  function ReleaseNow(s: State, t: nat): State
    requires t < |s.pcs|
  {
    var s' := Add(s, -2, if s.holds > 0 then s.holds - 1 else 0);
    if s.rc > 0 then s' else if s.rc < 0 then Trap(s') else At(s', t, Deciding)
  }

  /** The compare-and-swap from -2 to 1, then the deallocation. */
  function MarkNow(s: State, t: nat, fate: Fate): State
    requires t < |s.pcs|
  {
    if s.rc != -2 then Trap(s)
    else
      var s' := State(1, s.pcs[t := Idle], s.holds, s.marks + 1, s.deallocs, s.lateTries, s.trapped);
      if fate.Bogus? then Trap(s') else State(1, s'.pcs, s.holds, s.marks + 1, s.deallocs + 1, s.lateTries, s.trapped)
  }

  /** One load of _tryRetain. */
  function TryLoad(s: State, t: nat): State
    requires t < |s.pcs|
  {
    if s.rc % 2 == 1 || s.rc == -2 then At(s, t, Idle)
    else if s.rc < -2 then Trap(s)
    else At(s, t, Trying(s.rc))
  }

  /** Its compare-and-swap. */
  function TrySwap(s: State, t: nat, prev: int): State
    requires t < |s.pcs|
  {
    if s.rc != prev then TryLoad(s, t)
    else State(s.rc + 2, s.pcs[t := Idle], s.holds + 1, s.marks, s.deallocs,
               if s.rc % 2 == 1 then s.lateTries + 1 else s.lateTries, s.trapped)
  }

  /** Thread t takes one atomic action; nothing happens after a trap. */
  function Next(s: State, t: nat, e: Event): State
    requires t < |s.pcs|
  {
    if s.trapped then s
    else
      match (s.pcs[t], e)
      case (Idle, Retain) => RetainNow(s)
      case (Idle, Release) => ReleaseNow(s, t)
      case (Idle, Try) => TryLoad(s, t)
      case (Trying(prev), TryAgain) => TrySwap(s, t, prev)
      case (Deciding, Resurrect) => At(RetainNow(s), t, Idle)
      case (Deciding, Abandon) => At(s, t, Idle)
      case (Deciding, Decide(fate)) => At(s, t, Marking(fate))
      case (Marking(fate), Mark) => MarkNow(s, t, fate)
      case _ => s
  }

  function RunOf(s: State, steps: seq<(nat, Event)>): State
    requires forall k :: 0 <= k < |steps| ==> steps[k].0 < |s.pcs|
    decreases |steps|
  {
    if steps == [] then s
    else
      var s' := Next(s, steps[0].0, steps[0].1);
      assert |s'.pcs| == |s.pcs|;
      RunOf(s', steps[1..])
  }

  // ------------------------------------------------- any clients whatsoever

  ghost predicate Safe(s: State) {
    && s.marks == (if s.rc % 2 == 1 then 1 else 0)
    && s.deallocs <= s.marks && s.lateTries == 0
    && forall t :: 0 <= t < |s.pcs| && s.pcs[t].Trying? ==> s.pcs[t].prev % 2 == 0
  }

  /** However its clients misuse it: at most one thread marks the object, its
      count is odd from then on, it is deallocated at most once, and no
      _tryRetain succeeds afterwards. */
  lemma {:induction false} EveryRunSafe(s: State, steps: seq<(nat, Event)>)
    requires forall k :: 0 <= k < |steps| ==> steps[k].0 < |s.pcs|
    requires Safe(s)
    ensures Safe(RunOf(s, steps))
    ensures s.rc % 2 == 1 ==> RunOf(s, steps).rc % 2 == 1
    decreases |steps|
  {
    if steps != [] {
      NextSafe(s, steps[0].0, steps[0].1);
      EveryRunSafe(Next(s, steps[0].0, steps[0].1), steps[1..]);
    }
  }

  lemma NextSafe(s: State, t: nat, e: Event)
    requires t < |s.pcs| && Safe(s)
    ensures Safe(Next(s, t, e)) && (s.rc % 2 == 1 ==> Next(s, t, e).rc % 2 == 1)
  {
  }

  // ------------------------------------------------------- balanced clients

  /** A client retains and releases only through a reference it has, and its
      logic block gives a proper answer. */
  predicate Fair(s: State, t: nat, e: Event)
    requires t < |s.pcs|
  {
    match e
    case Retain => s.holds > 0
    case Release => s.holds > 0
    case Abandon => false
    case Decide(fate) => !fate.Bogus?
    case _ => true
  }

  ghost predicate FairRun(s: State, steps: seq<(nat, Event)>)
    decreases |steps|
  {
    steps == [] ||
    (steps[0].0 < |s.pcs| && Fair(s, steps[0].0, steps[0].1) && FairRun(Next(s, steps[0].0, steps[0].1), steps[1..]))
  }

  predicate Ending(pc: Pc) { pc.Deciding? || pc.Marking? }

  /** Without traps, the count tells the references exactly; when there are
      none, either one thread is about to decide the object's fate, or it has
      been deallocated. */
  ghost predicate Exact(s: State) {
    && !s.trapped
    && s.deallocs == s.marks <= 1
    && (s.marks == 1 ==> s.rc == 1 && s.holds == 0)
    && (s.marks == 0 ==> s.rc == 2 * s.holds - 2)
    && (forall t :: 0 <= t < |s.pcs| && Ending(s.pcs[t]) ==> s.holds == 0 && s.marks == 0)
    && (forall t, u :: 0 <= t < |s.pcs| && 0 <= u < |s.pcs| && Ending(s.pcs[t]) && Ending(s.pcs[u]) ==> t == u)
    && (s.holds == 0 && s.marks == 0 ==> exists t :: 0 <= t < |s.pcs| && Ending(s.pcs[t]))
    && (forall t :: 0 <= t < |s.pcs| && s.pcs[t].Marking? ==> !s.pcs[t].fate.Bogus?)
    && (forall t :: 0 <= t < |s.pcs| && s.pcs[t].Trying? ==> s.pcs[t].prev % 2 == 0 && s.pcs[t].prev >= 0)
  }

  lemma NextExact(s: State, t: nat, e: Event)
    requires t < |s.pcs| && Exact(s) && Fair(s, t, e)
    ensures Exact(Next(s, t, e))
  {
    var s' := Next(s, t, e);
    if s'.holds == 0 && s'.marks == 0 {
      if s.pcs[t].Idle? && e.Release? {
        assert Ending(s'.pcs[t]);
      } else {
        var u :| 0 <= u < |s.pcs| && Ending(s.pcs[u]);
        assert Ending(s'.pcs[u]);
      }
    }
  }

  /** Balanced clients never trap, in any interleaving and with any number of
      resurrections, and the object is deallocated exactly once, when its last
      reference is gone and nobody revives it. */
  lemma {:induction false} FairRunExact(s: State, steps: seq<(nat, Event)>)
    requires FairRun(s, steps) && Exact(s)
    requires forall k :: 0 <= k < |steps| ==> steps[k].0 < |s.pcs|
    ensures Exact(RunOf(s, steps))
    decreases |steps|
  {
    if steps != [] {
      NextExact(s, steps[0].0, steps[0].1);
      FairRunExact(Next(s, steps[0].0, steps[0].1), steps[1..]);
    }
  }

  /** A _tryRetain fails only on a count that is odd or logically zero, whatever
      the clients do. */
  lemma TryFails(s: State, t: nat, e: Event)
    requires t < |s.pcs| && !s.trapped && ((s.pcs[t].Idle? && e.Try?) || (s.pcs[t].Trying? && e.TryAgain?))
    ensures var s' := Next(s, t, e);
            && |s'.pcs| == |s.pcs|
            && (s'.pcs[t].Idle? && s'.holds == s.holds ==> s'.trapped || s.rc % 2 == 1 || s.rc == -2)
            && (s'.holds != s.holds ==> s'.holds == s.holds + 1 && s'.rc == s.rc + 2)
  {
  }

  /** Undisturbed, it takes a reference exactly when there is one. */
  lemma TryAlone(s: State, t: nat)
    requires t < |s.pcs| && Exact(s) && s.pcs[t].Idle?
    ensures var s' := Next(Next(s, t, Try), t, TryAgain);
            && |s'.pcs| == |s.pcs| && s'.pcs[t].Idle? && s'.deallocs == s.deallocs
            && s'.holds == (if s.holds > 0 then s.holds + 1 else s.holds)
            && s'.rc == (if s.holds > 0 then s.rc + 2 else s.rc)
  {
  }

  /** What each event does to the references of balanced clients: a retain and a
      resurrection add one, a release takes one off and sends its thread to the
      logic block exactly when that was the last, and marking deallocates. */
  lemma Effects(s: State, t: nat, e: Event)
    requires t < |s.pcs| && Exact(s) && Fair(s, t, e)
    ensures var s' := Next(s, t, e);
            && |s'.pcs| == |s.pcs|
            && (s.pcs[t].Idle? && e.Retain? ==> s'.holds == s.holds + 1 && s'.pcs[t].Idle?)
            && (s.pcs[t].Idle? && e.Release? ==> s'.holds == s.holds - 1 && (s'.pcs[t].Deciding? <==> s.holds == 1))
            && (s.pcs[t].Deciding? && e.Resurrect? ==> s'.holds == s.holds + 1 && s'.pcs[t].Idle?)
            && (s.pcs[t].Deciding? && e.Decide? ==> s'.holds == s.holds && s'.pcs[t] == Marking(e.fate))
            && (s.pcs[t].Marking? && e.Mark? ==> s'.deallocs == s.deallocs + 1 && s'.pcs[t].Idle?)
  {
  }

  /** Both from a new object, which has one reference. */
  lemma {:induction false} RunsFromInit(threads: nat, steps: seq<(nat, Event)>)
    requires forall k :: 0 <= k < |steps| ==> steps[k].0 < threads
    ensures Safe(RunOf(Init(threads), steps))
    ensures FairRun(Init(threads), steps) ==> Exact(RunOf(Init(threads), steps))
  {
    EveryRunSafe(Init(threads), steps);
    if FairRun(Init(threads), steps) { FairRunExact(Init(threads), steps); }
  }
}
