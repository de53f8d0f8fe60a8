/** What every run of the retain/release protocol guarantees. */
module RetainReleaseTheorems {
  import opened RetainRelease
  import opened RetainReleaseProofs

  lemma {:induction false} InitTotals(n: nat)
    ensures ThreadsWeight(seq(n, _ => Idle)) == 0 && ThreadsDeallocs(seq(n, _ => Idle)) == 0
  {
    if n > 0 {
      var ts := seq(n, _ => Idle);
      assert ts[..n - 1] == seq(n - 1, _ => Idle);
      InitTotals(n - 1);
    }
  }

  /** The invariant holds in every state that any schedule of any number of
      threads can reach. */
  lemma {:induction false} RunKeepsInv(half: nat, n: nat, cls: nat, moves: seq<Move>)
    requires half >= 2
    ensures Inv(half, Run(half, Init(n, cls), moves))
    decreases |moves|
  {
    if moves == [] {
      InitTotals(n);
    } else {
      var k := |moves| - 1;
      RunKeepsInv(half, n, cls, moves[..k]);
      StepKeepsInv(half, Run(half, Init(n, cls), moves[..k]), moves[k]);
    }
  }

  /** No retain count is lost or invented: the inline count, the side table
      and the lock holder's transfer in flight always add up to one plus the
      counted retains minus the counted releases. */
  lemma Conservation(half: nat, n: nat, cls: nat, moves: seq<Move>)
    requires half >= 2
    ensures var s := Run(half, Init(n, cls), moves);
            s.isa.extraRc + s.side + InFlight(half, s) == 1 + LogWeight(s.log) + ThreadsWeight(s.threads)
  {
    RunKeepsInv(half, n, cls, moves);
  }

  /** The side table holds whole halves, its flag is exact, and the object is
      deallocating exactly when no reference is left. */
  lemma SideTableExact(half: nat, n: nat, cls: nat, moves: seq<Move>)
    requires half >= 2
    ensures var s := Run(half, Init(n, cls), moves);
            && s.side % half == 0
            && (s.isa.hasSidetableRc <==> s.side + InFlight(half, s) > 0)
            && (IsDeallocating(s.isa) <==> Total(s) == 0)
            && s.isa.extraRc < 2 * half
  {
    RunKeepsInv(half, n, cls, moves);
  }

  /** The branch taken when a borrow finds the side table empty is dead. */
  lemma NeverEmptyAfterAll(half: nat, n: nat, cls: nat, moves: seq<Move>, t: nat)
    requires half >= 2
    ensures var s := Run(half, Init(n, cls), moves);
            t < |s.threads| ==> s.threads[t] != EmptyAfterAll
  {
    RunKeepsInv(half, n, cls, moves);
    var s := Run(half, Init(n, cls), moves);
    if t < |s.threads| { assert Local(half, s, s.threads[t]); }
  }

  function ReportsIn(log: seq<Outcome>): set<nat> {
    set i: nat | i < |log| && log[i].ReportedDealloc?
  }

  lemma {:induction false} ReportsCounted(log: seq<Outcome>)
    ensures |ReportsIn(log)| == LogDeallocs(log)
  {
    if log != [] {
      var k := |log| - 1;
      ReportsCounted(log[..k]);
      assert log[k].ReportedDealloc? ==> ReportsIn(log) == ReportsIn(log[..k]) + {k};
      assert !log[k].ReportedDealloc? ==> ReportsIn(log) == ReportsIn(log[..k]);
    }
  }

  /** At most one release ever reports deallocation, none while a reference is
      left, and exactly one once the count has reached zero and every call has
      returned. */
  lemma OneDeallocation(half: nat, n: nat, cls: nat, moves: seq<Move>)
    requires half >= 2
    ensures var s := Run(half, Init(n, cls), moves);
            && |ReportsIn(s.log)| <= 1
            && (Total(s) > 0 ==> ReportsIn(s.log) == {})
            && (Total(s) == 0 && ThreadsDeallocs(s.threads) == 0 ==> |ReportsIn(s.log)| == 1)
  {
    RunKeepsInv(half, n, cls, moves);
    ReportsCounted(Run(half, Init(n, cls), moves).log);
  }

  /** rootRetainCount returns the true total at the moment it loaded the isa. */
  lemma RetainCountExact(half: nat, n: nat, cls: nat, moves: seq<Move>, i: nat)
    requires half >= 2
    ensures var log := Run(half, Init(n, cls), moves).log;
            i < |log| && log[i].Count? ==> log[i].result == log[i].atLoad
  {
    RunKeepsInv(half, n, cls, moves);
  }

  /** A thread whose call has returned does not own the side-table lock, and
      two threads never both believe they do. */
  lemma LockBalanced(half: nat, n: nat, cls: nat, moves: seq<Move>, t: nat, u: nat)
    requires half >= 2
    ensures var s := Run(half, Init(n, cls), moves);
            t < |s.threads| && u < |s.threads| ==>
              && (s.threads[t].Idle? ==> s.lock != HeldBy(t))
              && (Holds(s.threads[t]) ==> s.lock == HeldBy(t))
              && (t != u ==> !(Holds(s.threads[t]) && Holds(s.threads[u])))
  {
    RunKeepsInv(half, n, cls, moves);
  }

  // -------------------------------------------------- what is never undone

  /** Class bits never change and flag bits, once set, stay set; an object
      that is deallocating stays so. */
  predicate Later(i: Isa, j: Isa) {
    && j.cls == i.cls
    && (i.hasAssoc ==> j.hasAssoc)
    && (i.weaklyReferenced ==> j.weaklyReferenced)
    && (IsDeallocating(i) ==> IsDeallocating(j))
  }

  lemma LoopLater(half: nat, s: State, t: nat, spurious: bool)
    requires half >= 2 && t < |s.threads| && Local(half, s, s.threads[t])
    requires s.threads[t].RetainLoop? || s.threads[t].ReleaseLoop?
    ensures Later(s.isa, Go1(half, s, t, spurious).isa)
  {
    match s.threads[t]
    case RetainLoop(try, full, seen, locked) =>
      assert Go1(half, s, t, spurious) == StepRetainLoop(half, s, t, try, full, seen, locked, spurious);
    case ReleaseLoop(full, seen, locked) =>
      assert Go1(half, s, t, spurious) == StepReleaseLoop(half, s, t, full, seen, locked, spurious);
  }

  lemma GoLater(half: nat, s: State, t: nat, spurious: bool)
    requires half >= 2 && t < |s.threads| && Local(half, s, s.threads[t])
    ensures Later(s.isa, Go1(half, s, t, spurious).isa)
  {
    match s.threads[t]
    case RetainLoop(_, _, _, _) => LoopLater(half, s, t, spurious);
    case ReleaseLoop(_, _, _) => LoopLater(half, s, t, spurious);
    case _ =>
  }

  lemma StepLater(half: nat, s: State, m: Move)
    requires half >= 2 && Inv(half, s)
    ensures Later(s.isa, Step(half, s, m).isa)
  {
    if m.thread < |s.threads| && m.choice.Go? {
      GoLater(half, s, m.thread, m.choice.spurious);
    }
  }

  lemma {:induction false} RunAppend(half: nat, s: State, a: seq<Move>, b: seq<Move>)
    ensures Run(half, s, a + b) == Run(half, Run(half, s, a), b)
    decreases |b|
  {
    if b == [] {
      assert a + b == a;
    } else {
      var k := |b| - 1;
      assert (a + b)[..|a + b| - 1] == a + b[..k];
      RunAppend(half, s, a, b[..k]);
    }
  }

  lemma RunSnoc(half: nat, s: State, moves: seq<Move>, m: Move)
    ensures Run(half, s, moves + [m]) == Step(half, Run(half, s, moves), m)
  {
    assert (moves + [m])[..|moves|] == moves;
  }

  lemma ExtendLater(half: nat, i: Isa, s: State, m: Move)
    requires half >= 2 && Inv(half, s) && Later(i, s.isa)
    ensures Later(i, Step(half, s, m).isa)
  {
    StepLater(half, s, m);
  }

  /** Over any run and any continuation of it: no lost update of the class or
      flag bits under retain and release traffic, and deallocating is final. */
  lemma {:induction false} NeverUndone(half: nat, n: nat, cls: nat, a: seq<Move>, b: seq<Move>)
    requires half >= 2
    ensures Later(Run(half, Init(n, cls), a).isa, Run(half, Init(n, cls), a + b).isa)
    decreases |b|
  {
    if b == [] {
      assert a + b == a;
    } else {
      var k := |b| - 1;
      var c := a + b[..k];
      NeverUndone(half, n, cls, a, b[..k]);
      RunKeepsInv(half, n, cls, c);
      assert a + b == c + [b[k]];
      RunSnoc(half, Init(n, cls), c, b[k]);
      ExtendLater(half, Run(half, Init(n, cls), a).isa, Run(half, Init(n, cls), c), b[k]);
    }
  }
}
