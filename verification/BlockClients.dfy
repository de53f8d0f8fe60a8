/** Whole runs of clients of the block runtime.

    A client makes blocks and __block variables on its stack, copies and
    releases them, and leaves the scopes it entered.  It gives up only
    references that it holds, and copies only what is still there. */
module BlockClients {
  import opened Blocks
  import opened BlockFrames
  import opened BlockPeaks
  import opened BlockRuntime

  datatype Op =
    | MakeGlobal
    | MakeBlock(caps: seq<Capture>)
    | MakeVar(val: Field)
    | WriteVar(x: nat, v: Capture)
    | CopyBlock(b: nat)
    | ReleaseBlock(b: nat)
    | AssignField(c: Capture)
    | DisposeField(c: Capture)
    | LeaveBlock(b: nat)
    | LeaveVar(x: nat)

  /** What the runtime asks of its client. */
  predicate Allowed(cells: seq<Cell>, holds: multiset<Capture>, op: Op) {
    match op
    case MakeBlock(caps) => ShapeOk(StackBlock(caps), |cells|)
    case WriteVar(x, _) => IsVar(cells, x)
    case CopyBlock(b) => Copyable(cells, b)
    case ReleaseBlock(b) => b < |cells| && (cells[b].StackBlock? || Blk(b) in holds)
    case AssignField(c) => Assignable(cells, c)
    case DisposeField(c) => c in holds
    case LeaveBlock(b) => b < |cells| && cells[b].StackBlock?
    case LeaveVar(x) => x < |cells| && cells[x].StackVar?
    case _ => true
  }

  /** The references that an operation makes, at most. */
  function OpCost(cells: seq<Cell>, op: Op): nat {
    match op
    case CopyBlock(b) => Cost(cells, Blk(b))
    case AssignField(c) => Cost(cells, c)
    case _ => 0
  }

  /** Memory that was freed stays freed. */
  ghost predicate FreedKept(c0: seq<Cell>, c1: seq<Cell>) {
    |c0| <= |c1| && forall x :: 0 <= x < |c0| && c0[x].Freed? ==> c1[x].Freed?
  }

  /** Between two calls: the invariant holds and no deallocation is half done. */
  ghost predicate Steady(rt: Runtime)
    reads rt
  {
    rt.Valid() && Quiet(rt.cells)
  }

  method Step(rt: Runtime, op: Op)
    requires Steady(rt) && Allowed(rt.cells, rt.holds, op)
    modifies rt
    ensures Steady(rt) && FreedKept(old(rt.cells), rt.cells)
    ensures rt.made <= old(rt.made) + OpCost(old(rt.cells), op)
  {
    match op
    case MakeGlobal => MakeCell(rt, Global);
    case MakeBlock(caps) => MakeCell(rt, StackBlock(caps));
    case MakeVar(val) => MakeCell(rt, StackVar(val, |rt.cells|));
    case WriteVar(x, v) => Write(rt, x, v);
    case CopyBlock(b) =>
      var _ := rt.Copy(b);
      CopyKeepsFreed(old(rt.cells), rt.cells, b);
    case AssignField(c) =>
      var bound := if c.Blk? then c.x else 0;
      var _ := rt.Assign(c, FromBlock, bound);
      CopyKeepsFreed(old(rt.cells), rt.cells, bound);
    case ReleaseBlock(b) =>
      rt.Release(b);
      StableKeepsFreed(old(rt.cells), rt.cells);
    case DisposeField(c) =>
      rt.Dispose(c, FromBlock);
      StableKeepsFreed(old(rt.cells), rt.cells);
    case LeaveBlock(b) => EndBlock(rt, b);
    case LeaveVar(x) => EndVar(rt, x);
  }

  /** A run stops where its client breaks the rules, and nowhere else.  In all
      of it no cell is freed twice, and what was freed stays freed. */
  method Run(rt: Runtime, ops: seq<Op>) returns (n: nat)
    requires Steady(rt)
    modifies rt
    ensures Steady(rt) && FreedKept(old(rt.cells), rt.cells)
    ensures forall x: nat :: rt.frees[x] == if x < |rt.cells| && rt.cells[x].Freed? then 1 else 0
    ensures n <= |ops| && (n < |ops| ==> !Allowed(rt.cells, rt.holds, ops[n]))
  {
    n := 0;
    while n < |ops|
      invariant n <= |ops| && Steady(rt) && FreedKept(old(rt.cells), rt.cells)
    {
      if !Allowed(rt.cells, rt.holds, ops[n]) { return; }
      Step(rt, ops[n]);
      n := n + 1;
    }
  }

  /** A new stack or global cell. */
  method MakeCell(rt: Runtime, c: Cell)
    requires Steady(rt) && ShapeOk(c, |rt.cells|)
    requires c.Global? || c.StackBlock? || (c.StackVar? && c.fwd == |rt.cells|)
    modifies rt
    ensures Steady(rt) && rt.cells == old(rt.cells) + [c] && rt.holds == old(rt.holds) && rt.made == old(rt.made)
  {
    AddPlainCell(rt.cells, rt.holds, rt.retained, c);
    AppendFrame(rt.cells, rt.holds, rt.retained, rt.rank, c);
    CountedMore(rt.cells, rt.holds, c, rt.holds, multiset{});
    rt.Become(rt.cells + [c], rt.holds, rt.retained, rt.rank + [0], multiset{});
  }

  /** An assignment to a __block variable goes through its forwarding pointer:
      everyone who shares the variable sees it, and nobody else does. */
  method Write(rt: Runtime, x: nat, v: Capture)
    requires Steady(rt) && IsVar(rt.cells, x)
    modifies rt
    ensures Steady(rt) && FreedKept(old(rt.cells), rt.cells) && |rt.cells| == |old(rt.cells)| && rt.made == old(rt.made)
    ensures forall y :: 0 <= y < |rt.cells| && IsVar(old(rt.cells), y) ==>
              && IsVar(rt.cells, y)
              && (if old(rt.cells)[y].fwd == old(rt.cells)[x].fwd then Value(rt.cells, y).content == v
                  else Value(rt.cells, y) == Value(old(rt.cells), y))
  {
    ForwardOk(rt.cells, rt.holds, rt.retained, x);
    var f := rt.cells[x].fwd;
    var field := Field(v, rt.cells[f].val.helper);
    var c := if rt.cells[f].StackVar? then StackVar(field, f) else HeapVar(field, rt.cells[f].rc, f);
    WriteSound(rt.cells, rt.holds, rt.retained, rt.rank, f, c);
    WriteValues(rt.cells, rt.holds, rt.retained, f, c);
    CountedAt(rt.cells, rt.holds, f, c, rt.holds, multiset{});
    rt.Become(rt.cells[f := c], rt.holds, rt.retained, rt.rank, multiset{});
  }

  lemma WriteSound(cells: seq<Cell>, holds: multiset<Capture>, retained: multiset<nat>, rank: seq<nat>, f: nat, c: Cell)
    requires Sound(cells, holds, retained) && Ranked(cells, rank) && f < |cells|
    requires (cells[f].StackVar? && c.StackVar? && c.fwd == cells[f].fwd)
             || (cells[f].HeapVar? && c.HeapVar? && c.fwd == cells[f].fwd && c.rc == cells[f].rc)
    ensures Sound(cells[f := c], holds, retained) && Ranked(cells[f := c], rank)
  {
    RankedFewer(cells, cells[f := c], rank);
    if c.StackVar? {
      Replace(cells, holds, retained, f, c, holds);
    } else {
      assert ShapeOk(cells[f], f) && CountOk(cells[f], f, holds + Total(cells));
      Recount(cells, holds, retained, f, c, Var(f), holds);
    }
  }

  lemma WriteValues(cells: seq<Cell>, holds: multiset<Capture>, retained: multiset<nat>, f: nat, c: Cell)
    requires Sound(cells, holds, retained) && f < |cells|
    requires (cells[f].StackVar? && c.StackVar? && c.fwd == cells[f].fwd == f)
             || (cells[f].HeapVar? && c.HeapVar? && c.fwd == cells[f].fwd && c.rc == cells[f].rc)
    ensures forall y :: 0 <= y < |cells| && IsVar(cells, y) ==>
              IsVar(cells[f := c], y) && Value(cells[f := c], y) == if cells[y].fwd == f then c.val else Value(cells, y)
  {
  }

  /** A stack block goes away with its scope; it owned nothing. */
  method EndBlock(rt: Runtime, b: nat)
    requires Steady(rt) && b < |rt.cells| && rt.cells[b].StackBlock?
    modifies rt
    ensures Steady(rt) && rt.cells == old(rt.cells)[b := Gone] && rt.holds == old(rt.holds) && rt.made == old(rt.made)
  {
    Replace(rt.cells, rt.holds, rt.retained, b, Gone, rt.holds);
    RankedFewer(rt.cells, rt.cells[b := Gone], rt.rank);
    CountedAt(rt.cells, rt.holds, b, Gone, rt.holds, multiset{});
    rt.Become(rt.cells[b := Gone], rt.holds, rt.retained, rt.rank, multiset{});
  }

  /** The end of a __block variable's scope: the stack gives up its reference to
      the heap copy, if there is one. */
  method EndVar(rt: Runtime, x: nat)
    requires Steady(rt) && x < |rt.cells| && rt.cells[x].StackVar?
    modifies rt
    ensures Steady(rt) && FreedKept(old(rt.cells), rt.cells) && rt.holds == old(rt.holds) && rt.made == old(rt.made)
    ensures rt.cells[x].Gone?
  {
    ForwardOk(rt.cells, rt.holds, rt.retained, x);
    var f := rt.cells[x].fwd;
    if f == x {
      DropVar(rt, x, multiset{});
    } else {
      EndForwarded(rt, x, f);
    }
  }

  method EndForwarded(rt: Runtime, x: nat, f: nat)
    requires Steady(rt) && x < |rt.cells| && rt.cells[x].StackVar? && rt.cells[x].fwd == f != x
    requires f < |rt.cells| && rt.cells[f].HeapVar? && rt.cells[f].fwd == f
    modifies rt
    ensures Steady(rt) && FreedKept(old(rt.cells), rt.cells) && rt.holds == old(rt.holds) && rt.made == old(rt.made)
    ensures rt.cells[x].Gone?
  {
    DropVar(rt, x, multiset{Var(f)});
    GiveUp(rt, f, x);
    HeldBack(old(rt.holds), Var(f));
  }

  /** The release of the heap cell at the end of variable x's scope. */
  method GiveUp(rt: Runtime, f: nat, ghost x: nat)
    requires Steady(rt) && f < |rt.cells| && rt.cells[f].HeapVar? && rt.cells[f].fwd == f && Var(f) in rt.holds
    requires x < |rt.cells| && rt.cells[x].Gone?
    modifies rt
    ensures Steady(rt) && FreedKept(old(rt.cells), rt.cells) && rt.holds == old(rt.holds) - multiset{Var(f)}
    ensures rt.cells[x].Gone? && rt.made == old(rt.made)
  {
    rt.ByrefRelease(f);
    StableKeepsFreed(old(rt.cells), rt.cells);
    assert StableCell(old(rt.cells)[x], rt.cells[x]);
  }

  lemma HeldBack(holds: multiset<Capture>, c: Capture)
    ensures holds + multiset{c} - multiset{c} == holds
  {
  }

  /** The stack's reference passes to the caller. */
  method DropVar(rt: Runtime, x: nat, owned: multiset<Capture>)
    requires Steady(rt) && x < |rt.cells| && rt.cells[x].StackVar? && owned == OwnedBy(x, rt.cells[x])
    modifies rt
    ensures Steady(rt) && rt.cells == old(rt.cells)[x := Gone] && rt.holds == old(rt.holds) + owned
    ensures rt.made == old(rt.made)
  {
    Replace(rt.cells, rt.holds, rt.retained, x, Gone, rt.holds + owned);
    RankedFewer(rt.cells, rt.cells[x := Gone], rt.rank);
    CountedAt(rt.cells, rt.holds, x, Gone, rt.holds + owned, multiset{});
    rt.Become(rt.cells[x := Gone], rt.holds + owned, rt.retained, rt.rank, multiset{});
  }

  lemma CopyKeepsFreed(c0: seq<Cell>, c1: seq<Cell>, b: nat)
    requires CopyFrame(c0, c1, b) && Quiet(c0)
    ensures FreedKept(c0, c1) && Quiet(c1)
  {
  }

  lemma StableKeepsFreed(c0: seq<Cell>, c1: seq<Cell>)
    requires Stable(c0, c1) && Quiet(c0)
    ensures FreedKept(c0, c1) && Quiet(c1)
  {
  }

  /** A count is the number of references to its cell, or it is stuck, and it is
      stuck exactly when its cell once had 32767 of them. */
  lemma CountExact(rt: Runtime, x: nat)
    requires rt.Valid() && x < |rt.cells| && (rt.cells[x].HeapBlock? || rt.cells[x].HeapVar?)
    ensures x < |rt.peak| <= |rt.cells| && rt.peak[x] <= rt.made
    ensures rt.cells[x].rc == if rt.peak[x] >= 32767 then 32767
                              else RefsTo(rt.cells[x], x, rt.holds + Total(rt.cells))
  {
    assert CountOk(rt.cells[x], x, rt.holds + Total(rt.cells));
  }

  /** After any run in which the client has given back everything it held and
      left every scope, and no cell ever had 32767 references at a time, the heap
      is empty and every object's retains are balanced. */
  lemma NoLeak(rt: Runtime)
    requires Steady(rt) && rt.holds == multiset{}
    requires forall i :: 0 <= i < |rt.cells| ==> !rt.cells[i].StackVar?
    requires forall i :: 0 <= i < |rt.peak| ==> rt.peak[i] < 32767
    ensures forall i :: 0 <= i < |rt.cells| ==> !rt.cells[i].HeapBlock? && !rt.cells[i].HeapVar?
    ensures rt.retained == multiset{}
  {
    forall i | 0 <= i < |rt.cells| && (rt.cells[i].HeapBlock? || rt.cells[i].HeapVar?) ensures rt.cells[i].rc < LATCH {
      assert LatchOk(rt.cells[i], rt.peak[i]);
    }
    NothingLeft(rt.cells, rt.retained, rt.rank);
  }

  /** A run from the start that stops only where its client breaks the rules or
      wants more than so many references from one operation.  When it makes
      fewer than 32767 references, no count sticks, and nothing is left on the
      heap once the client has given everything back. */
  method RunShort(ops: seq<Op>, most: nat) returns (rt: Runtime, n: nat)
    ensures fresh(rt) && Steady(rt)
    ensures n <= |ops| && (n < |ops| ==> !Allowed(rt.cells, rt.holds, ops[n]) || OpCost(rt.cells, ops[n]) > most)
    ensures rt.made <= n * most
    ensures n * most < 32767 && rt.holds == multiset{}
            && (forall i :: 0 <= i < |rt.cells| ==> !rt.cells[i].StackVar?) ==>
              && rt.retained == multiset{}
              && forall i :: 0 <= i < |rt.cells| ==> !rt.cells[i].HeapBlock? && !rt.cells[i].HeapVar?
  {
    rt := new Runtime();
    n := 0;
    while n < |ops|
      invariant n <= |ops| && fresh(rt) && Steady(rt) && rt.made <= n * most
    {
      if !Allowed(rt.cells, rt.holds, ops[n]) || OpCost(rt.cells, ops[n]) > most { break; }
      Step(rt, ops[n]);
      OneMoreTime(n, most);
      n := n + 1;
    }
    NoShortLeak(rt, n * most);
  }

  lemma OneMoreTime(n: nat, most: nat)
    ensures (n + 1) * most == n * most + most
  {
  }

  lemma NoShortLeak(rt: Runtime, bound: nat)
    requires Steady(rt) && rt.made <= bound
    ensures bound < 32767 && rt.holds == multiset{} && (forall i :: 0 <= i < |rt.cells| ==> !rt.cells[i].StackVar?) ==>
              && rt.retained == multiset{}
              && forall i :: 0 <= i < |rt.cells| ==> !rt.cells[i].HeapBlock? && !rt.cells[i].HeapVar?
  {
    if bound < 32767 && rt.holds == multiset{} && forall i :: 0 <= i < |rt.cells| ==> !rt.cells[i].StackVar? {
      NoLeak(rt);
    }
  }

  /** No reference of any kind, held by the client or owned by a cell, leads to
      a freed cell, and none owned by the heap leads to the stack. */
  lemma NothingDangles(rt: Runtime, c: Capture)
    requires Steady(rt) && c in rt.holds + Total(rt.cells)
    ensures c.Blk? ==> c.x < |rt.cells| && (rt.cells[c.x].Global? || rt.cells[c.x].HeapBlock?)
    ensures c.Var? ==> c.x < |rt.cells| && rt.cells[c.x].HeapVar? && rt.cells[c.x].fwd == c.x
  {
  }
}
