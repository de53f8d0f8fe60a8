/** Striped locks: lockTwo, lockAll and single locks, by any number of threads.

    A lock is its stripe index, which is its order in memory. */
module LockOrder {
  import opened Counting

  datatype Act = Take(l: nat) | Drop(l: nat)

  /** What a thread does with the locks of one map of n stripes. */
  datatype Program = One(l: nat) | Two(l1: nat, l2: nat) | All

  predicate Proper(p: Program, n: nat) {
    match p
    case One(l) => l < n
    case Two(l1, l2) => l1 < n && l2 < n
    case All => true
  }

  /** lockTwo takes the lower lock first, and one lock only once; lockAll takes
      them in order.  The unlocks follow the order of unlockTwo and unlockAll. */
  function Acts(p: Program, n: nat): seq<Act> {
    match p
    case One(l) => [Take(l), Drop(l)]
    case Two(l1, l2) => LockTwo(l1, l2) + UnlockTwo(l1, l2)
    case All => Takes(0, n) + Drops(0, n)
  }

  function LockTwo(l1: nat, l2: nat): seq<Act> {
    if l1 < l2 then [Take(l1), Take(l2)] else if l2 != l1 then [Take(l2), Take(l1)] else [Take(l2)]
  }

  function UnlockTwo(l1: nat, l2: nat): seq<Act> {
    if l2 != l1 then [Drop(l1), Drop(l2)] else [Drop(l1)]
  }

  function Takes(i: nat, n: nat): seq<Act>
    decreases n - i
  {
    if i >= n then [] else [Take(i)] + Takes(i + 1, n)
  }

  function Drops(i: nat, n: nat): seq<Act>
    decreases n - i
  {
    if i >= n then [] else [Drop(i)] + Drops(i + 1, n)
  }

  /** owner[l] is the thread that has lock l, or -1. */
  datatype State = State(owner: seq<int>, todo: seq<seq<Act>>)

  datatype Event = Begin(p: Program) | Advance

  function Held(owner: seq<int>, t: nat): set<nat> { set l: nat | l < |owner| && owner[l] == t }

  /** The rest of a thread's program, given the locks it has: it only waits for
      locks above all of them, and it gives back everything it took. */
  predicate Fit(acts: seq<Act>, held: set<nat>, n: nat) {
    if acts == [] then held == {}
    else
      match acts[0]
      case Take(l) => l < n && (forall h :: h in held ==> h < l) && Fit(acts[1..], held + {l}, n)
      case Drop(l) => l in held && Fit(acts[1..], held - {l}, n)
  }

  ghost predicate Inv(s: State) {
    && (forall l :: 0 <= l < |s.owner| ==> -1 <= s.owner[l] < |s.todo|)
    && (forall t :: 0 <= t < |s.todo| ==> Fit(s.todo[t], Held(s.owner, t), |s.owner|))
  }

  predicate Blocked(s: State, t: nat)
    requires t < |s.todo|
  {
    s.todo[t] != [] && s.todo[t][0].Take? && s.todo[t][0].l < |s.owner| && s.owner[s.todo[t][0].l] != -1
  }

  /** Thread t starts a program, or does its next action unless it is blocked. */
  function Next(s: State, t: nat, e: Event): State
    requires t < |s.todo|
  {
    if s.todo[t] == [] then
      match e
      case Begin(p) => if Proper(p, |s.owner|) then s.(todo := s.todo[t := Acts(p, |s.owner|)]) else s
      case Advance => s
    else if e.Begin? || Blocked(s, t) || s.todo[t][0].l >= |s.owner| then s
    else
      var a := s.todo[t][0];
      State(s.owner[a.l := if a.Take? then t else -1], s.todo[t := s.todo[t][1..]])
  }

  ghost predicate Init(s: State) {
    (forall l :: 0 <= l < |s.owner| ==> s.owner[l] == -1) && (forall t :: 0 <= t < |s.todo| ==> s.todo[t] == [])
  }

  // ---------------------------------------------------------- the invariant

  lemma {:induction false} DropsFit(i: nat, n: nat)
    requires i <= n
    ensures Fit(Drops(i, n), Below(n) - Below(i), n)
    decreases n - i
  {
    if i < n {
      DropsFit(i + 1, n);
      assert Below(n) - Below(i) - {i} == Below(n) - Below(i + 1);
      assert Drops(i, n)[1..] == Drops(i + 1, n);
    } else {
      assert Below(n) - Below(i) == {};
    }
  }

  lemma {:induction false} TakesFit(i: nat, n: nat, rest: seq<Act>)
    requires i <= n && Fit(rest, Below(n), n)
    ensures Fit(Takes(i, n) + rest, Below(i), n)
    decreases n - i
  {
    if i < n {
      TakesFit(i + 1, n, rest);
      assert (Takes(i, n) + rest)[1..] == Takes(i + 1, n) + rest;
    } else {
      assert Takes(i, n) + rest == rest;
    }
  }

  lemma TwoFit(l1: nat, l2: nat, n: nat)
    requires l1 < n && l2 < n
    ensures Fit(LockTwo(l1, l2) + UnlockTwo(l1, l2), {}, n)
  {
    var acts := LockTwo(l1, l2) + UnlockTwo(l1, l2);
    if l1 == l2 {
      assert acts == [Take(l1), Drop(l1)];
      assert acts[1..] == [Drop(l1)] && acts[1..][1..] == [];
      assert {l1} - {l1} == {} && {} + {l1} == {l1};
      assert Fit([Drop(l1)], {l1}, n);
    } else {
      var lo, hi := if l1 < l2 then l1 else l2, if l1 < l2 then l2 else l1;
      assert acts == [Take(lo), Take(hi), Drop(l1), Drop(l2)];
      assert acts[1..] == [Take(hi), Drop(l1), Drop(l2)];
      assert acts[1..][1..] == [Drop(l1), Drop(l2)];
      assert acts[1..][1..][1..] == [Drop(l2)] && acts[1..][1..][1..][1..] == [];
      assert {} + {lo} == {lo} && {lo} + {hi} == {l1, l2} && {l1, l2} - {l1} == {l2} && {l2} - {l2} == {};
      assert Fit([Drop(l2)], {l2}, n);
      assert Fit([Drop(l1), Drop(l2)], {l1, l2}, n);
      assert Fit([Take(hi), Drop(l1), Drop(l2)], {lo}, n);
    }
  }

  lemma ActsFit(p: Program, n: nat)
    requires Proper(p, n)
    ensures Fit(Acts(p, n), {}, n)
  {
    match p
    case One(l) =>
      TwoFit(l, l, n);
      assert LockTwo(l, l) + UnlockTwo(l, l) == [Take(l), Drop(l)];
    case Two(l1, l2) =>
      TwoFit(l1, l2, n);
    case All =>
      DropsFit(0, n);
      assert Below(n) - Below(0) == Below(n);
      TakesFit(0, n, Drops(0, n));
  }

  lemma NextKeepsInv(s: State, t: nat, e: Event)
    requires t < |s.todo| && Inv(s)
    ensures Inv(Next(s, t, e)) && |Next(s, t, e).todo| == |s.todo|
  {
    if s.todo[t] == [] {
      if e.Begin? && Proper(e.p, |s.owner|) { ActsFit(e.p, |s.owner|); }
    } else if e.Advance? && !Blocked(s, t) {
      AdvanceKeepsInv(s, t);
    }
  }

  lemma AdvanceKeepsInv(s: State, t: nat)
    requires t < |s.todo| && Inv(s) && s.todo[t] != [] && !Blocked(s, t)
    ensures Inv(Next(s, t, Advance))
  {
    var a := s.todo[t][0];
    assert Fit(s.todo[t], Held(s.owner, t), |s.owner|);
    var s' := Next(s, t, Advance);
    forall u | 0 <= u < |s'.todo| ensures Fit(s'.todo[u], Held(s'.owner, u), |s'.owner|) {
      if u == t {
        assert Held(s'.owner, t) == if a.Take? then Held(s.owner, t) + {a.l} else Held(s.owner, t) - {a.l};
      } else {
        assert Held(s'.owner, u) == Held(s.owner, u);
      }
    }
  }

  function RunOf(s: State, steps: seq<(nat, Event)>): State
    requires forall k :: 0 <= k < |steps| ==> steps[k].0 < |s.todo|
    decreases |steps|
  {
    if steps == [] then s
    else
      var s' := Next(s, steps[0].0, steps[0].1);
      assert |s'.todo| == |s.todo|;
      RunOf(s', steps[1..])
  }

  lemma {:induction false} RunKeepsInv(s: State, steps: seq<(nat, Event)>)
    requires forall k :: 0 <= k < |steps| ==> steps[k].0 < |s.todo|
    requires Inv(s)
    ensures Inv(RunOf(s, steps))
    decreases |steps|
  {
    if steps != [] {
      NextKeepsInv(s, steps[0].0, steps[0].1);
      RunKeepsInv(Next(s, steps[0].0, steps[0].1), steps[1..]);
    }
  }

  lemma InitInv(s: State)
    requires Init(s)
    ensures Inv(s)
  {
  }

  // ------------------------------------------------------------ what is held

  /** The locks of a thread that had these and has done those actions. */
  function HeldAfter(acts: seq<Act>, held: set<nat>): set<nat> {
    if acts == [] then held
    else HeldAfter(acts[1..], match acts[0] case Take(l) => held + {l} case Drop(l) => held - {l})
  }

  lemma LastDropped(l: nat)
    ensures HeldAfter([Drop(l)], {l}) == {}
  {
    var none := {l} - {l};
    assert [Drop(l)][1..] == [];
    assert HeldAfter([], none) == none == {};
  }

  /** lockTwo ends with both locks, unlockTwo with neither. */
  lemma TwoHeld(l1: nat, l2: nat)
    ensures HeldAfter(LockTwo(l1, l2), {}) == {l1, l2} && HeldAfter(UnlockTwo(l1, l2), {l1, l2}) == {}
  {
    var lo, hi := if l1 < l2 then l1 else l2, if l1 < l2 then l2 else l1;
    if l1 == l2 {
      assert [Take(l2)][1..] == [] && [Drop(l1)][1..] == [];
    } else {
      assert [Take(lo), Take(hi)][1..] == [Take(hi)] && [Take(hi)][1..] == [];
      assert [Drop(l1), Drop(l2)][1..] == [Drop(l2)] && [Drop(l2)][1..] == [];
      assert {} + {lo} == {lo} && {lo} + {hi} == {l1, l2} && {l1, l2} - {l1} == {l2} && {l2} - {l2} == {};
      assert HeldAfter([Take(hi)], {lo}) == {l1, l2};
      LastDropped(l2);
    }
  }

  /** lockAll ends with all n locks. */
  lemma {:induction false} AllHeld(i: nat, n: nat)
    requires i <= n
    ensures HeldAfter(Takes(i, n), Below(i)) == Below(n)
    decreases n - i
  {
    if i < n {
      assert Takes(i, n)[1..] == Takes(i + 1, n) && Below(i) + {i} == Below(i + 1);
      AllHeld(i + 1, n);
    }
  }

  lemma {:induction false} DropsHeld(i: nat, n: nat, held: set<nat>, m: nat)
    requires i <= n && Fit(Drops(i, n), held, m)
    ensures forall l :: i <= l < n ==> l in held
    decreases n - i
  {
    if i < n {
      assert Drops(i, n)[0] == Drop(i) && Drops(i, n)[1..] == Drops(i + 1, n);
      DropsHeld(i + 1, n, held - {i}, m);
      forall l | i <= l < n ensures l in held {
        if l > i { assert l in held - {i}; }
      }
    }
  }

  /** In every reachable state, a thread that is about to unlock two locks, or
      all of them, has them. */
  lemma HeldInside(s0: State, steps: seq<(nat, Event)>, t: nat, l1: nat, l2: nat)
    requires forall k :: 0 <= k < |steps| ==> steps[k].0 < |s0.todo|
    requires Init(s0) && t < |RunOf(s0, steps).todo|
    ensures var s := RunOf(s0, steps);
            && (s.todo[t] == UnlockTwo(l1, l2) && l1 < |s.owner| && l2 < |s.owner| ==> s.owner[l1] == s.owner[l2] == t)
            && (s.todo[t] == Drops(0, |s.owner|) ==> forall l :: 0 <= l < |s.owner| ==> s.owner[l] == t)
  {
    InitInv(s0);
    RunKeepsInv(s0, steps);
    var s := RunOf(s0, steps);
    assert Fit(s.todo[t], Held(s.owner, t), |s.owner|);
    if s.todo[t] == UnlockTwo(l1, l2) {
      assert l1 != l2 ==> [Drop(l1), Drop(l2)][1..] == [Drop(l2)];
      assert l1 in Held(s.owner, t) && l2 in Held(s.owner, t);
    }
    if s.todo[t] == Drops(0, |s.owner|) {
      DropsHeld(0, |s.owner|, Held(s.owner, t), |s.owner|);
      forall l | 0 <= l < |s.owner| ensures s.owner[l] == t { assert l in Held(s.owner, t); }
    }
  }

  // --------------------------------------------------------------- progress

  /** Thread t waits for a lock that thread u has. */
  ghost predicate WaitsFor(s: State, t: nat, u: nat) {
    t < |s.todo| && Blocked(s, t) && s.owner[s.todo[t][0].l] == u
  }

  /** Whoever holds what t waits for is busy itself, and waits only for
      something higher. */
  lemma WaitsHigher(s: State, t: nat, u: nat)
    requires Inv(s) && WaitsFor(s, t, u)
    ensures u < |s.todo| && u != t && s.todo[u] != []
    ensures Blocked(s, u) ==> s.todo[t][0].l < s.todo[u][0].l
  {
    var l := s.todo[t][0].l;
    assert Fit(s.todo[t], Held(s.owner, t), |s.owner|) && Fit(s.todo[u], Held(s.owner, u), |s.owner|);
    assert l in Held(s.owner, u);
  }

  /** From any busy thread, some chain of owners ends at a thread that can go on. */
  lemma {:induction false} SomeoneAdvances(s: State, t: nat) returns (u: nat)
    requires Inv(s) && t < |s.todo| && s.todo[t] != []
    ensures u < |s.todo| && s.todo[u] != [] && !Blocked(s, u)
    decreases if s.todo[t][0].Take? then |s.owner| - s.todo[t][0].l else 0
  {
    if !Blocked(s, t) {
      u := t;
    } else {
      WaitsHigher(s, t, s.owner[s.todo[t][0].l]);
      var v := s.owner[s.todo[t][0].l];
      if !Blocked(s, v) { u := v; } else { u := SomeoneAdvances(s, v); }
    }
  }

  /** No deadlock: in every reachable state where a thread is busy, some thread
      can take its next action. */
  lemma NeverAllBlocked(s0: State, steps: seq<(nat, Event)>, t: nat)
    requires forall k :: 0 <= k < |steps| ==> steps[k].0 < |s0.todo|
    requires Init(s0) && t < |RunOf(s0, steps).todo| && RunOf(s0, steps).todo[t] != []
    ensures var s := RunOf(s0, steps);
            exists u: nat :: u < |s.todo| && s.todo[u] != [] && !Blocked(s, u)
  {
    InitInv(s0);
    RunKeepsInv(s0, steps);
    var u := SomeoneAdvances(RunOf(s0, steps), t);
  }

  /** The threads path[0], path[1], ... each wait for the next. */
  ghost predicate WaitPath(s: State, path: seq<nat>) {
    forall i :: 0 <= i < |path| - 1 ==> WaitsFor(s, path[i], path[i + 1])
  }

  lemma {:induction false} PathClimbs(s: State, path: seq<nat>)
    requires Inv(s) && |path| >= 2 && WaitPath(s, path)
    requires path[|path| - 1] < |s.todo| && Blocked(s, path[|path| - 1])
    ensures WaitsFor(s, path[0], path[1]) && s.todo[path[0]][0].l < s.todo[path[|path| - 1]][0].l
  {
    assert WaitsFor(s, path[0], path[1]);
    WaitsHigher(s, path[0], path[1]);
    if |path| > 2 {
      var rest := path[1..];
      forall i | 0 <= i < |rest| - 1 ensures WaitsFor(s, rest[i], rest[i + 1]) {
        assert WaitsFor(s, path[i + 1], path[i + 2]);
      }
      PathClimbs(s, rest);
    }
  }

  /** The wait-for relation has no cycle in any reachable state. */
  lemma NoWaitCycle(s0: State, steps: seq<(nat, Event)>, path: seq<nat>)
    requires forall k :: 0 <= k < |steps| ==> steps[k].0 < |s0.todo|
    requires Init(s0) && |path| >= 2 && WaitPath(RunOf(s0, steps), path)
    ensures path[0] != path[|path| - 1]
  {
    InitInv(s0);
    RunKeepsInv(s0, steps);
    if path[0] == path[|path| - 1] {
      assert WaitsFor(RunOf(s0, steps), path[0], path[1]);
      PathClimbs(RunOf(s0, steps), path);
    }
  }
}
