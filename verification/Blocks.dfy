/** The heap of the block runtime: blocks, __block variables ("byrefs") and the
    references between them.

    An address is an index into the sequence of cells; memory is never given
    out twice, so a freed cell stays Freed.  The flags word is split into its
    count (bits 1 to 15) and its DEALLOCATING bit. */
module Blocks {
  /** The count at which a reference count sticks (BLOCK_REFCOUNT_MASK). */
  const LATCH: nat := 32767

  /** A captured value, by the helper flags that the compiler gives it. */
  datatype Capture = Plain(v: int) | Obj(o: nat) | Blk(x: nat) | Var(x: nat)

  /** What a __block variable holds, and whether the compiler gave the variable
      keep and destroy helpers (BLOCK_BYREF_HAS_COPY_DISPOSE). */
  datatype Field = Field(content: Capture, helper: bool)

  /** Who asks for a field to be assigned or disposed of: the helper of a block,
      or that of a __block variable (BLOCK_BYREF_CALLER). */
  datatype Caller = FromBlock | FromByref

  const NO_FIELD := Field(Plain(0), false)

  /** A heap block owns its captures from position lo on: none while it is
      being filled, fewer and fewer while it is disposed of. */
  datatype Cell =
    | Freed
    | Gone
    | Global
    | StackBlock(caps: seq<Capture>)
    | HeapBlock(rc: nat, dealloc: bool, caps: seq<Capture>, lo: nat)
    | StackVar(val: Field, fwd: nat)
    | HeapVar(val: Field, rc: nat, fwd: nat)

  // ------------------------------------------------------ latching counters

  /** latching_incr_int */
  function Incr(rc: nat): nat { if rc == LATCH then rc else rc + 1 }

  /** latching_decr_int_should_deallocate: the new count, and whether the last
      reference is gone.  DEALLOCATING is set along with that answer. */
  function Decr(rc: nat, dealloc: bool): (nat, bool) {
    if rc == LATCH || rc == 0 then (rc, false)
    else if rc == 1 && !dealloc then (0, true)
    else (rc - 1, false)
  }

  // ------------------------------------------------------------- references

  /** The references that one cell owns. */
  function OwnedBy(i: nat, c: Cell): multiset<Capture> {
    match c
    case HeapBlock(_, _, caps, lo) => if lo <= |caps| then multiset(caps[lo..]) else multiset{}
    case StackVar(_, fwd) => if fwd != i then multiset{Var(fwd)} else multiset{}
    case _ => multiset{}
  }

  /** What each cell owns. */
  function Owns(cells: seq<Cell>): nat -> multiset<Capture> {
    (i: nat) => if i < |cells| then OwnedBy(i, cells[i]) else multiset{}
  }

  function SumTo(owns: nat -> multiset<Capture>, n: nat): multiset<Capture> {
    if n == 0 then multiset{} else SumTo(owns, n - 1) + owns(n - 1)
  }

  /** All owned references. */
  function Total(cells: seq<Cell>): multiset<Capture> { SumTo(Owns(cells), |cells|) }

  lemma {:induction false} SumSame(f: nat -> multiset<Capture>, g: nat -> multiset<Capture>, n: nat)
    requires forall i :: 0 <= i < n ==> f(i) == g(i)
    ensures SumTo(f, n) == SumTo(g, n)
  {
    if n > 0 { SumSame(f, g, n - 1); }
  }

  lemma {:induction false} SumUpdate(f: nat -> multiset<Capture>, g: nat -> multiset<Capture>, i: nat, n: nat)
    requires i < n && forall k :: 0 <= k < n && k != i ==> f(k) == g(k)
    ensures f(i) <= SumTo(f, n) && SumTo(g, n) == SumTo(f, n) - f(i) + g(i)
  {
    if i == n - 1 {
      SumSame(f, g, i);
      SwapLast(SumTo(f, i), f(i), g(i));
    } else {
      SumUpdate(f, g, i, n - 1);
      SwapInside(SumTo(f, n - 1), f(i), g(i), f(n - 1));
    }
  }

  lemma {:induction false} SumOwner(f: nat -> multiset<Capture>, c: Capture, n: nat) returns (i: nat)
    requires c in SumTo(f, n)
    ensures i < n && c in f(i)
  {
    if c in f(n - 1) { i := n - 1; } else { i := SumOwner(f, c, n - 1); }
  }

  lemma TotalAppend(cells: seq<Cell>, c: Cell)
    ensures Total(cells + [c]) == Total(cells) + OwnedBy(|cells|, c)
  {
    SumSame(Owns(cells), Owns(cells + [c]), |cells|);
  }

  lemma TotalUpdate(cells: seq<Cell>, i: nat, c: Cell)
    requires i < |cells|
    ensures OwnedBy(i, cells[i]) <= Total(cells)
    ensures Total(cells[i := c]) == Total(cells) - OwnedBy(i, cells[i]) + OwnedBy(i, c)
  {
    SumUpdate(Owns(cells), Owns(cells[i := c]), i, |cells|);
  }

  lemma SwapLast(rest: multiset<Capture>, a: multiset<Capture>, b: multiset<Capture>)
    ensures rest + b == rest + a - a + b
  {
  }

  lemma SwapInside(total: multiset<Capture>, a: multiset<Capture>, b: multiset<Capture>, last: multiset<Capture>)
    requires a <= total
    ensures total - a + b + last == total + last - a + b
  {
  }

  lemma TotalOwner(cells: seq<Cell>, c: Capture) returns (i: nat)
    requires c in Total(cells)
    ensures i < |cells| && c in OwnedBy(i, cells[i])
  {
    i := SumOwner(Owns(cells), c, |cells|);
  }

  // -------------------------------------------------------------- invariant

  /** Numbers and pointers inside a cell. */
  predicate ShapeOk(c: Cell, i: nat) {
    match c
    case StackBlock(caps) => forall k :: 0 <= k < |caps| && (caps[k].Blk? || caps[k].Var?) ==> caps[k].x < i
    case HeapBlock(rc, dealloc, caps, lo) => lo <= |caps| && (if dealloc then rc == 0 else 1 <= rc <= LATCH)
    case HeapVar(_, rc, fwd) => 1 <= rc <= LATCH && fwd == i
    case _ => true
  }

  predicate Shape(cells: seq<Cell>) { forall i :: 0 <= i < |cells| ==> ShapeOk(cells[i], i) }

  /** An unlatched count equals the number of references. */
  predicate CountOk(c: Cell, x: nat, refs: multiset<Capture>) {
    match c
    case HeapBlock(rc, _, _, _) => rc == LATCH || rc == refs[Blk(x)]
    case HeapVar(_, rc, _) => rc == LATCH || rc == refs[Var(x)]
    case _ => true
  }

  /** A reference leads to a live cell that is not on the stack. */
  predicate TargetOk(cells: seq<Cell>, c: Capture) {
    match c
    case Blk(x) => x < |cells| && (cells[x].Global? || (cells[x].HeapBlock? && !cells[x].dealloc))
    case Var(x) => x < |cells| && cells[x].HeapVar?
    case _ => true
  }

  ghost predicate Matches(cells: seq<Cell>, refs: multiset<Capture>, retained: multiset<nat>) {
    && (forall x :: 0 <= x < |cells| ==> CountOk(cells[x], x, refs))
    && (forall c :: c in refs ==> TargetOk(cells, c))
    && (forall o: nat :: retained[o] == refs[Obj(o)])
  }

  /** The ownership invariant: holds are the references outside the cells. */
  ghost predicate Sound(cells: seq<Cell>, holds: multiset<Capture>, retained: multiset<nat>) {
    Shape(cells) && Matches(cells, holds + Total(cells), retained)
  }

  /** Every cell has been freed as often as it is Freed: once or never. */
  ghost predicate OnceFreed(cells: seq<Cell>, frees: multiset<nat>) {
    forall x: nat :: frees[x] == if x < |cells| && cells[x].Freed? then 1 else 0
  }

  /** No cell has been freed, or come back, between these two states. */
  ghost predicate SameFreed(c0: seq<Cell>, c1: seq<Cell>) {
    |c0| <= |c1| && forall x :: 0 <= x < |c1| ==> (c1[x].Freed? <==> x < |c0| && c0[x].Freed?)
  }

  // ------------------------------------------------------------------ steps

  /** A new cell takes n references to itself, which nobody had before. */
  lemma MatchesAppend(cells: seq<Cell>, refs: multiset<Capture>, retained: multiset<nat>, c: Cell, self: Capture,
                      refs': multiset<Capture>)
    requires Matches(cells, refs, retained)
    requires (c.HeapBlock? && !c.dealloc && self == Blk(|cells|)) || (c.HeapVar? && self == Var(|cells|))
    requires refs' == refs[self := c.rc]
    ensures refs[self] == 0 && Matches(cells + [c], refs', retained)
  {
  }

  /** malloc of a block: one reference, nothing owned yet. */
  lemma AddHeapBlock(cells: seq<Cell>, holds: multiset<Capture>, retained: multiset<nat>, caps: seq<Capture>)
    requires Sound(cells, holds, retained)
    ensures Sound(cells + [HeapBlock(1, false, caps, |caps|)], holds + multiset{Blk(|cells|)}, retained)
  {
    var c := HeapBlock(1, false, caps, |caps|);
    TotalAppend(cells, c);
    assert caps[|caps|..] == [];
    var refs := holds + Total(cells);
    MatchesAppend(cells, refs, retained, c, Blk(|cells|), refs[Blk(|cells|) := 1]);
    assert holds + multiset{Blk(|cells|)} + Total(cells + [c]) == refs[Blk(|cells|) := 1];
  }

  /** A new cell that owns nothing and that nobody counts. */
  lemma AddPlainCell(cells: seq<Cell>, holds: multiset<Capture>, retained: multiset<nat>, c: Cell)
    requires Sound(cells, holds, retained) && ShapeOk(c, |cells|)
    requires c.Global? || c.StackBlock? || (c.StackVar? && c.fwd == |cells|)
    ensures Sound(cells + [c], holds, retained)
  {
    TotalAppend(cells, c);
    assert holds + Total(cells + [c]) == holds + Total(cells);
  }

  /** A change of cell that changes no count. */
  predicate SameStanding(a: Cell, c: Cell) {
    || (a.HeapBlock? && c.HeapBlock? && c.rc == a.rc && c.dealloc == a.dealloc && c.lo <= |c.caps|)
    || (a.StackVar? && (c.StackVar? || c.Gone?))
    || (a.StackBlock? && c.Gone?)
  }

  lemma MatchesReplace(cells: seq<Cell>, refs: multiset<Capture>, retained: multiset<nat>, x: nat, c: Cell)
    requires Matches(cells, refs, retained) && x < |cells| && SameStanding(cells[x], c)
    ensures Matches(cells[x := c], refs, retained)
  {
  }

  /** Changing what a cell owns, while the other references make up for it. */
  lemma Replace(cells: seq<Cell>, holds: multiset<Capture>, retained: multiset<nat>, x: nat, c: Cell,
                holds': multiset<Capture>)
    requires Sound(cells, holds, retained) && x < |cells| && SameStanding(cells[x], c)
    requires holds' + OwnedBy(x, c) == holds + OwnedBy(x, cells[x])
    ensures Sound(cells[x := c], holds', retained)
  {
    TotalUpdate(cells, x, c);
    Rebalance(holds, Total(cells), OwnedBy(x, cells[x]), holds', OwnedBy(x, c));
    MatchesReplace(cells, holds + Total(cells), retained, x, c);
  }

  lemma Rebalance(holds: multiset<Capture>, total: multiset<Capture>, owned: multiset<Capture>,
                  holds': multiset<Capture>, owned': multiset<Capture>)
    requires owned <= total && holds' + owned' == holds + owned
    ensures holds' + (total - owned + owned') == holds + total
  {
    assert total == total - owned + owned;
    assert holds' + (total - owned + owned') == (total - owned) + (holds' + owned');
  }

  lemma MatchesCount(cells: seq<Cell>, refs: multiset<Capture>, retained: multiset<nat>, x: nat, c: Cell,
                     self: Capture, refs': multiset<Capture>)
    requires Matches(cells, refs, retained) && x < |cells|
    requires (self == Blk(x) && cells[x].HeapBlock?) || (self == Var(x) && cells[x].HeapVar?)
    requires refs' == refs[self := refs'[self]]
    requires CountOk(c, x, refs') && (refs'[self] > 0 ==> TargetOk(cells[x := c], self))
    ensures Matches(cells[x := c], refs', retained)
  {
  }

  /** A new count for a cell whose outside references change to match. */
  lemma Recount(cells: seq<Cell>, holds: multiset<Capture>, retained: multiset<nat>, x: nat, c: Cell, self: Capture,
                holds': multiset<Capture>)
    requires Sound(cells, holds, retained) && x < |cells|
    requires (self == Blk(x) && cells[x].HeapBlock?) || (self == Var(x) && cells[x].HeapVar?)
    requires holds' == holds[self := holds'[self]] && OwnedBy(x, c) == OwnedBy(x, cells[x]) && ShapeOk(c, x)
    requires CountOk(c, x, holds' + Total(cells))
    requires holds'[self] + Total(cells)[self] > 0 ==> TargetOk(cells[x := c], self)
    ensures Sound(cells[x := c], holds', retained)
  {
    TotalSame(cells, x, c);
    OnlyAt(holds, holds', Total(cells), self);
    MatchesCount(cells, holds + Total(cells), retained, x, c, self, holds' + Total(cells));
    ShapeUpdate(cells, x, c);
  }

  lemma TotalSame(cells: seq<Cell>, x: nat, c: Cell)
    requires x < |cells| && OwnedBy(x, c) == OwnedBy(x, cells[x])
    ensures Total(cells[x := c]) == Total(cells)
  {
    TotalUpdate(cells, x, c);
  }

  lemma ShapeUpdate(cells: seq<Cell>, x: nat, c: Cell)
    requires x < |cells| && Shape(cells) && ShapeOk(c, x)
    ensures Shape(cells[x := c])
  {
  }

  lemma OnlyAt(holds: multiset<Capture>, holds': multiset<Capture>, total: multiset<Capture>, self: Capture)
    requires holds' == holds[self := holds'[self]]
    ensures holds' + total == (holds + total)[self := (holds' + total)[self]]
  {
  }

  /** A deallocating block that owns nothing more is freed. */
  lemma Free(cells: seq<Cell>, holds: multiset<Capture>, retained: multiset<nat>, x: nat)
    requires Sound(cells, holds, retained) && x < |cells|
    requires cells[x].HeapBlock? && cells[x].dealloc && cells[x].lo == |cells[x].caps|
    ensures Sound(cells[x := Freed], holds, retained)
  {
    assert holds[Blk(x) := holds[Blk(x)]] == holds;
    assert OwnedBy(x, cells[x]) == multiset{};
    assert (holds + Total(cells))[Blk(x)] == 0;
    Recount(cells, holds, retained, x, Freed, Blk(x), holds);
  }

  /** References that no cell counts: to a global block, to nothing. */
  lemma AddHold(cells: seq<Cell>, holds: multiset<Capture>, retained: multiset<nat>, c: Capture)
    requires Sound(cells, holds, retained) && (c.Plain? || (c.Blk? && c.x < |cells| && cells[c.x].Global?))
    ensures Sound(cells, holds + multiset{c}, retained)
  {
  }

  lemma DropHold(cells: seq<Cell>, holds: multiset<Capture>, retained: multiset<nat>, c: Capture)
    requires Sound(cells, holds, retained) && c in holds
             && (c.Plain? || (c.Blk? && c.x < |cells| && cells[c.x].Global?))
    ensures Sound(cells, holds - multiset{c}, retained)
  {
  }

  lemma AddObject(cells: seq<Cell>, holds: multiset<Capture>, retained: multiset<nat>, o: nat)
    requires Sound(cells, holds, retained)
    ensures Sound(cells, holds + multiset{Obj(o)}, retained + multiset{o})
  {
    var refs, refs' := holds + Total(cells), holds + multiset{Obj(o)} + Total(cells);
    assert forall t :: t != Obj(o) ==> refs'[t] == refs[t];
    assert forall t :: t in refs' ==> t in refs || t == Obj(o);
  }

  lemma DropObject(cells: seq<Cell>, holds: multiset<Capture>, retained: multiset<nat>, o: nat)
    requires Sound(cells, holds, retained) && Obj(o) in holds
    ensures o in retained && Sound(cells, holds - multiset{Obj(o)}, retained - multiset{o})
  {
    var refs, refs' := holds + Total(cells), holds - multiset{Obj(o)} + Total(cells);
    assert refs' == refs[Obj(o) := refs[Obj(o)] - 1];
    MatchesDrop(cells, refs, retained, o, refs');
  }

  lemma MatchesDrop(cells: seq<Cell>, refs: multiset<Capture>, retained: multiset<nat>, o: nat,
                    refs': multiset<Capture>)
    requires Matches(cells, refs, retained) && Obj(o) in refs && refs' == refs[Obj(o) := refs[Obj(o)] - 1]
    ensures o in retained && Matches(cells, refs', retained - multiset{o})
  {
    assert forall t :: t in refs' ==> t in refs;
  }
}
