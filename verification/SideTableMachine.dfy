/** The retain/release machine with its side-table counter kept in the real
    table: every step of the machine is a step of the table operations. */
module SideTableMachine {
  import opened DenseMaps
  import opened RetainRelease
  import opened RetainReleaseTheorems
  import opened SideTable

  /** A thread that will clear the entry it has emptied. */
  predicate WillClear(pc: Pc) {
    match pc
    case BorrowFirst(_, _, emptied) => emptied
    case BorrowSecond(_, _, emptied) => emptied
    case BorrowStored(emptied, _) => emptied
    case _ => false
  }

  ghost predicate NeedsEntry(s: State) { exists u :: 0 <= u < |s.threads| && WillClear(s.threads[u]) }

  /** The machine without its counter: side is 0, and what the counter would
      say must be asked of the table. */
  predicate Blind(v: State) { v.side == 0 }

  /** The machine's state when the table stands for its counter. */
  ghost function Seen(r: Refcounts, o: nat, v: State): State
    reads r, r.refcnts
  {
    v.(side := Counter(r.refcnts.Model, o))
  }

  /** The table holds a plain count for o, and an entry that is about to be
      cleared is there. */
  ghost predicate Keeps(r: Refcounts, o: nat, v: State)
    reads r, r.refcnts, r.refcnts.buckets
  {
    && Blind(v) && r.Valid() && PlainCount(r.refcnts.Model, o)
    && (NeedsEntry(v) ==> o in r.refcnts.View())
  }

  /** Where a step of thread t works on the table. */
  datatype Access = Untouched | Credit(n: nat) | Take | Erase | Read

  function AccessOf(half: nat, s: State, m: Move): Access {
    if s.trapped || m.thread >= |s.threads| || !m.choice.Go? then Untouched
    else
      match s.threads[m.thread]
      case RetainAdd(_) => Credit(half)
      case ReleaseLoop(full, seen, locked) =>
        if !IsDeallocating(seen) && seen.extraRc == 0 && full && locked then Take else Untouched
      case BorrowPutBack(b) => Credit(b)
      case BorrowStored(emptied, _) => if emptied then Erase else Untouched
      case CountLoaded(bits, _) => if bits.hasSidetableRc then Read else Untouched
      case _ => Untouched
  }

  /** While one thread owns the lock, no other is about to clear. */
  lemma OnlyOwner(s: State, t: nat)
    requires LockInv(s) && t < |s.threads| && Holds(s.threads[t])
    ensures forall u :: 0 <= u < |s.threads| && u != t ==> !WillClear(s.threads[u])
  {
  }

  /** s' differs from s in thread t, which does not begin to clear. */
  ghost predicate Calm(s: State, s': State, t: nat)
    requires t < |s.threads|
  {
    && s'.side == s.side && |s'.threads| == |s.threads|
    && (forall u :: 0 <= u < |s.threads| && u != t ==> s'.threads[u] == s.threads[u])
    && (WillClear(s'.threads[t]) ==> WillClear(s.threads[t]))
  }

  /** A move that leaves the table alone does the same with any counter, and
      makes no new demands on the table. */
  lemma UntouchedMeaning(half: nat, v: State, side: nat, m: Move)
    requires half >= 2 && Blind(v) && Inv(half, v.(side := side)) && AccessOf(half, v, m) == Untouched
    ensures Step(half, v.(side := side), m) == Step(half, v, m).(side := side)
    ensures Blind(Step(half, v, m)) && (NeedsEntry(Step(half, v, m)) ==> NeedsEntry(v))
  {
    if !v.trapped && m.thread < |v.threads| {
      if m.choice.Go? {
        assert Local(half, v.(side := side), v.threads[m.thread]);
        GoCalm(half, v, side, m.thread, m.choice.spurious);
      } else {
        StartCalm(half, v, side, m);
      }
    }
  }

  lemma StartCalm(half: nat, v: State, side: nat, m: Move)
    requires !v.trapped && m.thread < |v.threads| && !m.choice.Go?
    ensures Calm(v, Step(half, v, m), m.thread)
    ensures Step(half, v.(side := side), m) == Step(half, v, m).(side := side)
  {
  }

  lemma GoCalm(half: nat, v: State, side: nat, t: nat, spurious: bool)
    requires half >= 2 && t < |v.threads| && !v.trapped && Local(half, v.(side := side), v.threads[t])
    requires AccessOf(half, v, Move(t, Go(spurious))) == Untouched
    ensures Calm(v, Go1(half, v, t, spurious), t)
    ensures Go1(half, v.(side := side), t, spurious) == Go1(half, v, t, spurious).(side := side)
  {
    match v.threads[t]
    case RetainLoop(_, _, _, _) =>
      RetainCalm(half, v, t, spurious);
      var RetainLoop(try, full, seen, locked) := v.threads[t];
      RetainBlind(half, v, side, t, try, full, seen, locked, spurious);
    case ReleaseLoop(_, _, _) => ReleaseCalm(half, v, side, t, spurious);
    case _ =>
  }

  lemma RetainCalm(half: nat, v: State, t: nat, spurious: bool)
    requires t < |v.threads| && v.threads[t].RetainLoop?
    ensures Calm(v, Go1(half, v, t, spurious), t)
  {
    var RetainLoop(try, full, seen, locked) := v.threads[t];
    assert Go1(half, v, t, spurious) == StepRetainLoop(half, v, t, try, full, seen, locked, spurious);
  }

  lemma RetainBlind(half: nat, v: State, side: nat, t: nat, try: bool, full: bool, seen: Isa, locked: bool,
                    spurious: bool)
    requires t < |v.threads|
    ensures StepRetainLoop(half, v.(side := side), t, try, full, seen, locked, spurious)
            == StepRetainLoop(half, v, t, try, full, seen, locked, spurious).(side := side)
  {
  }

  lemma ReleaseCalm(half: nat, v: State, side: nat, t: nat, spurious: bool)
    requires t < |v.threads| && v.threads[t].ReleaseLoop? && !v.trapped
    requires AccessOf(half, v, Move(t, Go(spurious))) == Untouched
    ensures Calm(v, Go1(half, v, t, spurious), t)
    ensures Go1(half, v.(side := side), t, spurious) == Go1(half, v, t, spurious).(side := side)
  {
    var ReleaseLoop(full, seen, locked) := v.threads[t];
    assert Go1(half, v, t, spurious) == StepReleaseLoop(half, v, t, full, seen, locked, spurious);
  }

  /** sidetable_addExtraRC_nolock, called after a spill and to put back. */
  function AfterCredit(v: State, t: nat): State
    requires t < |v.threads| && (v.threads[t].RetainAdd? || v.threads[t].BorrowPutBack?)
  {
    At(v, t, match v.threads[t]
             case RetainAdd(try) => if try then TryDone(Retained) else Unlocking(Retained)
             case BorrowPutBack(_) => ReleaseReload)
  }

  lemma CreditMeaning(half: nat, v: State, side: nat, m: Move, n: nat)
    requires half >= 2 && Inv(half, v.(side := side)) && AccessOf(half, v, m) == Credit(n)
    ensures 0 < n <= half && !NeedsEntry(AfterCredit(v, m.thread))
    ensures Step(half, v.(side := side), m) == AfterCredit(v, m.thread).(side := side + n)
  {
    var t := m.thread;
    assert Local(half, v.(side := side), v.threads[t]);
    OnlyOwner(v, t);
    OthersSame(v, AfterCredit(v, t), t);
  }

  /** sidetable_subExtraRC_nolock has answered. */
  function AfterTake(v: State, t: nat, borrowed: nat, emptied: bool): State
    requires t < |v.threads| && v.threads[t].ReleaseLoop?
  {
    At(v, t, if borrowed > 0 then BorrowFirst(v.threads[t].seen, borrowed, emptied) else EmptyAfterAll)
  }

  lemma TakeMeaning(half: nat, v: State, side: nat, m: Move, borrowed: nat, emptied: bool)
    requires half >= 2 && Inv(half, v.(side := side)) && AccessOf(half, v, m) == Take
    requires borrowed == Min(half, side) && (emptied <==> side == borrowed)
    ensures Step(half, v.(side := side), m) == AfterTake(v, m.thread, borrowed, emptied).(side := side - borrowed)
    ensures NeedsEntry(AfterTake(v, m.thread, borrowed, emptied)) ==> borrowed > 0
  {
    OnlyOwner(v, m.thread);
  }

  /** sidetable_clearExtraRC_nolock has returned. */
  function AfterErase(v: State, t: nat): State
    requires t < |v.threads| && v.threads[t].BorrowStored?
  {
    At(v, t, Unlocking(if v.threads[t].dealloc then ReportedDealloc else Released))
  }

  lemma EraseMeaning(half: nat, v: State, side: nat, m: Move)
    requires half >= 2 && Inv(half, v.(side := side)) && AccessOf(half, v, m) == Erase
    ensures NeedsEntry(v) && !NeedsEntry(AfterErase(v, m.thread))
    ensures Step(half, v.(side := side), m) == AfterErase(v, m.thread).(side := 0)
  {
    var t := m.thread;
    assert Local(half, v.(side := side), v.threads[t]) && WillClear(v.threads[t]);
    OnlyOwner(v, t);
  }

  /** sidetable_getExtraRC_nolock has answered. */
  function AfterRead(v: State, t: nat, n: nat): State
    requires t < |v.threads| && v.threads[t].CountLoaded?
  {
    At(v, t, Unlocking(Count(v.threads[t].bits.extraRc + n, v.threads[t].atLoad)))
  }

  lemma ReadMeaning(half: nat, v: State, side: nat, m: Move)
    requires half >= 2 && Inv(half, v.(side := side)) && AccessOf(half, v, m) == Read
    ensures Step(half, v.(side := side), m) == AfterRead(v, m.thread, side).(side := side)
    ensures !NeedsEntry(AfterRead(v, m.thread, side))
  {
    var t := m.thread;
    OnlyOwner(v, t);
    OthersSame(v, AfterRead(v, t, side), t);
  }

  lemma OthersSame(s: State, s': State, t: nat)
    requires t < |s.threads| == |s'.threads| && !NeedsEntry(s) && !WillClear(s'.threads[t])
    requires forall u :: 0 <= u < |s.threads| && u != t ==> s'.threads[u] == s.threads[u]
    ensures !NeedsEntry(s')
  {
  }

  /** A step of the machine without its counter: the next state is built from
      what the table answers. */
  method StepWithTable(r: Refcounts, o: nat, half: nat, v: State, m: Move) returns (v': State)
    requires half >= 2 && Keeps(r, o, v) && Inv(half, Seen(r, o, v))
    requires r.refcnts.buckets.Length <= MAX_BUCKETS && 4 * (Counter(r.refcnts.Model, o) + half) < PINNED
    modifies r.refcnts, r.refcnts.buckets
    ensures Keeps(r, o, v') && Seen(r, o, v') == Step(half, old(Seen(r, o, v)), m)
    ensures r.refcnts.buckets == old(r.refcnts.buckets) || fresh(r.refcnts.buckets)
    ensures forall x: nat :: x != o ==> Stored(r.refcnts.Model, x) == old(Stored(r.refcnts.Model, x))
  {
    ghost var side := Counter(r.refcnts.Model, o);
    var t := m.thread;
    match AccessOf(half, v, m)
    case Untouched =>
      UntouchedMeaning(half, v, side, m);
      v' := Step(half, v, m);
    case Credit(n) =>
      CreditMeaning(half, v, side, m, n);
      Spill(r, o, n);
      v' := AfterCredit(v, t);
    case Take =>
      var borrowed, emptied := TakeHalf(r, o, half);
      TakeMeaning(half, v, side, m, borrowed, emptied);
      v' := AfterTake(v, t, borrowed, emptied);
    case Erase =>
      EraseMeaning(half, v, side, m);
      r.ClearExtraRC(o);
      v' := AfterErase(v, t);
    case Read =>
      ReadMeaning(half, v, side, m);
      var n := r.GetExtraRC(o);
      v' := AfterRead(v, t, n);
  }

  // ----------------------------------------------------- the table is shared

  type Delta = d: nat | 4 * d < WORD

  /** What is done to another object's count. */
  datatype Work = Add(delta: Delta) | Sub(delta: Delta) | Clear

  /** The word after that work. */
  function Worked(w: nat, work: Work): nat
    requires w < WORD
  {
    match work
    case Add(d) => if w >= PINNED then w else if w + 4 * d < WORD then w + 4 * d else PINNED + w % 4
    case Sub(d) => if w == 0 then 0 else Less(w, 4 * d)
    case Clear => 0
  }

  method WorkOn(r: Refcounts, x: nat, work: Work)
    requires r.Valid() && r.refcnts.buckets.Length <= MAX_BUCKETS
    modifies r.refcnts, r.refcnts.buckets
    ensures r.Valid() && (r.refcnts.buckets == old(r.refcnts.buckets) || fresh(r.refcnts.buckets))
    ensures Changed(old(r.refcnts.Model), r.refcnts.Model, x, Worked(old(Stored(r.refcnts.Model, x)), work))
  {
    match work
    case Add(d) => AddTo(r, x, d);
    case Sub(d) => var _, _ := r.SubExtraRC(x, d);
    case Clear => ClearIfThere(r, x);
  }

  method AddTo(r: Refcounts, x: nat, d: Delta)
    requires r.Valid() && r.refcnts.buckets.Length <= MAX_BUCKETS
    modifies r.refcnts, r.refcnts.buckets
    ensures r.Valid() && (r.refcnts.buckets == old(r.refcnts.buckets) || fresh(r.refcnts.buckets))
    ensures Changed(old(r.refcnts.Model), r.refcnts.Model, x, Worked(old(Stored(r.refcnts.Model, x)), Add(d)))
  {
    ghost var w := Stored(r.refcnts.Model, x);
    var pinned := r.AddExtraRC(x, d);
    assert Worked(w, Add(d)) == if !pinned then w + 4 * d else if w >= PINNED then w else PINNED + w % 4;
  }

  method ClearIfThere(r: Refcounts, x: nat)
    requires r.Valid() && r.refcnts.buckets.Length <= MAX_BUCKETS
    modifies r.refcnts, r.refcnts.buckets
    ensures r.Valid() && (r.refcnts.buckets == old(r.refcnts.buckets) || fresh(r.refcnts.buckets))
    ensures Changed(old(r.refcnts.Model), r.refcnts.Model, x, 0)
  {
    var found, _ := r.refcnts.LookupBucketFor(x);
    if found { r.ClearExtraRC(x); }
  }

  /** Work on another object, done while nobody owns the lock, leaves the count
      of o alone and takes no entry that somebody needs. */
  lemma OthersKeep(before: map<nat, nat>, after: map<nat, nat>, o: nat, x: nat, w: nat, v: State)
    requires LockInv(v) && v.lock.Free? && x != o && Changed(before, after, x, w) && PlainCount(before, o)
    ensures PlainCount(after, o) && Counter(after, o) == Counter(before, o) && !NeedsEntry(v)
  {
    if NeedsEntry(v) {
      var u :| 0 <= u < |v.threads| && WillClear(v.threads[u]);
      assert Holds(v.threads[u]);
    }
  }

  /** A move of the machine, or work on object x under the lock.  Work on o
      itself, or while a thread of the machine owns the lock, does not apply. */
  datatype Event = Mine(m: Move) | Other(x: nat, work: Work)

  function Moves(events: seq<Event>): seq<Move> {
    if events == [] then []
    else
      var e := events[|events| - 1];
      Moves(events[..|events| - 1]) + (if e.Mine? then [e.m] else [])
  }

  predicate Applies(v: State, o: nat, e: Event) { e.Other? && e.x != o && v.lock.Free? }

  /** The word of another object x after these events, if the machine had never
      been there. */
  function WordAfter(half: nat, start: State, o: nat, x: nat, w: nat, events: seq<Event>): (w': nat)
    requires w < WORD
    ensures w' < WORD
  {
    if events == [] then w
    else
      var n := |events| - 1;
      var before := WordAfter(half, start, o, x, w, events[..n]);
      if Applies(Run(half, start, Moves(events[..n])), o, events[n]) && events[n].x == x
      then Worked(before, events[n].work) else before
  }

  /** The words of all other objects are what the other work made of them. */
  ghost predicate OthersExact(half: nat, start: State, o: nat, m0: map<nat, nat>, m1: map<nat, nat>, events: seq<Event>)
    requires Words(m0)
  {
    forall x: nat :: x != o ==> Stored(m1, x) == WordAfter(half, start, o, x, Stored(m0, x), events)
  }

  /** One event. */
  method EventWithTable(r: Refcounts, o: nat, half: nat, v: State, e: Event) returns (v': State)
    requires half >= 2 && Keeps(r, o, v) && Inv(half, Seen(r, o, v))
    requires r.refcnts.buckets.Length <= MAX_BUCKETS && 4 * (Counter(r.refcnts.Model, o) + half) < PINNED
    modifies r.refcnts, r.refcnts.buckets
    ensures Keeps(r, o, v')
            && Seen(r, o, v') == if e.Mine? then Step(half, old(Seen(r, o, v)), e.m) else old(Seen(r, o, v))
    ensures r.refcnts.buckets == old(r.refcnts.buckets) || fresh(r.refcnts.buckets)
    ensures forall x: nat :: x != o ==>
              var w := old(Stored(r.refcnts.Model, x));
              Stored(r.refcnts.Model, x) == if Applies(v, o, e) && e.x == x then Worked(w, e.work) else w
  {
    v' := v;
    if e.Mine? {
      v' := StepWithTable(r, o, half, v, e.m);
    } else if e.x != o && v.lock.Free? {
      ghost var before := r.refcnts.Model;
      WorkOn(r, e.x, e.work);
      OthersKeep(before, r.refcnts.Model, o, e.x, Worked(Stored(before, e.x), e.work), v);
    }
  }

  /** Every run of the machine from a new object, with the table in place of its
      counter and with other objects using the table: the machine and the table
      together are the machine with its counter, and the other objects' words
      are as if the machine had not been there, for as long as the limits of the
      table and the count allow. */
  method RunWithTable(r: Refcounts, o: nat, half: nat, threads: nat, cls: nat, events: seq<Event>)
    returns (k: nat, v: State)
    requires half >= 2 && r.Valid() && Stored(r.refcnts.Model, o) == 0
    modifies r.refcnts, r.refcnts.buckets
    ensures k <= |events| && Keeps(r, o, v) && Seen(r, o, v) == Run(half, Init(threads, cls), Moves(events[..k]))
    ensures OthersExact(half, Init(threads, cls), o, old(r.refcnts.Model), r.refcnts.Model, events[..k])
    ensures k < |events| ==>
              r.refcnts.buckets.Length > MAX_BUCKETS || 4 * (Counter(r.refcnts.Model, o) + half) >= PINNED
  {
    k, v := 0, Init(threads, cls);
    while k < |events|
      invariant k <= |events| && Keeps(r, o, v) && Seen(r, o, v) == Run(half, Init(threads, cls), Moves(events[..k]))
      invariant OthersExact(half, Init(threads, cls), o, old(r.refcnts.Model), r.refcnts.Model, events[..k])
      invariant r.refcnts.buckets == old(r.refcnts.buckets) || fresh(r.refcnts.buckets)
    {
      var n := r.GetExtraRC(o);
      if r.refcnts.buckets.Length > MAX_BUCKETS || 4 * (n + half) >= PINNED { break; }
      RunKeepsInv(half, threads, cls, Moves(events[..k]));
      ghost var before := r.refcnts.Model;
      ghost var s := Seen(r, o, v);
      v := EventWithTable(r, o, half, v, events[k]);
      NextMoves(half, Init(threads, cls), events, k, s);
      NextWords(half, Init(threads, cls), o, old(r.refcnts.Model), before, r.refcnts.Model, events, k, s);
      k := k + 1;
    }
  }

  lemma NextMoves(half: nat, start: State, events: seq<Event>, k: nat, s: State)
    requires k < |events| && s == Run(half, start, Moves(events[..k]))
    ensures Run(half, start, Moves(events[..k + 1])) == if events[k].Mine? then Step(half, s, events[k].m) else s
  {
    assert events[..k + 1][..k] == events[..k];
    var ms := Moves(events[..k]);
    if events[k].Mine? { assert (ms + [events[k].m])[..|ms|] == ms; } else { assert ms + [] == ms; }
  }

  lemma NextWords(half: nat, start: State, o: nat, m0: map<nat, nat>, m1: map<nat, nat>, m2: map<nat, nat>,
                  events: seq<Event>, k: nat, s: State)
    requires Words(m0) && Words(m1) && k < |events| && s == Run(half, start, Moves(events[..k]))
    requires OthersExact(half, start, o, m0, m1, events[..k])
    requires forall x: nat :: x != o ==>
               var w := Stored(m1, x);
               Stored(m2, x) == if Applies(s, o, events[k]) && events[k].x == x then Worked(w, events[k].work) else w
    ensures OthersExact(half, start, o, m0, m2, events[..k + 1])
  {
    assert events[..k + 1][..k] == events[..k];
  }
}
