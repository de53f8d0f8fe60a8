/** What the operations of the block runtime leave alone. */
module BlockFrames {
  import opened Blocks

  // --------------------------------------------------------------- copying

  /** Everything that copying block b will touch is still there. */
  predicate Copyable(cells: seq<Cell>, b: nat)
    decreases b
  {
    && b < |cells|
    && match cells[b] {
         case Global => true
         case HeapBlock(_, dealloc, _, _) => !dealloc
         case StackBlock(caps) => forall k :: 0 <= k < |caps| ==>
           (caps[k].Blk? ==> caps[k].x < b && Copyable(cells, caps[k].x)) && (caps[k].Var? ==> IsVar(cells, caps[k].x))
         case _ => false
       }
  }

  predicate IsVar(cells: seq<Cell>, x: nat) { x < |cells| && (cells[x].StackVar? || cells[x].HeapVar?) }

  predicate Assignable(cells: seq<Cell>, c: Capture) {
    (c.Blk? ==> Copyable(cells, c.x)) && (c.Var? ==> IsVar(cells, c.x))
  }

  /** Copying changes counts and forwards stack variables to new cells. */
  predicate KeptCell(a: Cell, b: Cell, i: nat) {
    match a
    case HeapBlock(_, dealloc, caps, lo) => b.HeapBlock? && b.dealloc == dealloc && b.caps == caps && b.lo == lo
    case HeapVar(val, _, fwd) => b.HeapVar? && b.val == val && b.fwd == fwd
    case StackVar(val, fwd) => b.StackVar? && b.val == val && (b.fwd == fwd || fwd == i)
    case _ => b == a
  }

  ghost predicate Grown(c0: seq<Cell>, c1: seq<Cell>) {
    |c0| <= |c1| && forall i :: 0 <= i < |c0| ==> KeptCell(c0[i], c1[i], i)
  }

  lemma GrownTrans(c0: seq<Cell>, c1: seq<Cell>, c2: seq<Cell>)
    requires Grown(c0, c1) && Grown(c1, c2)
    ensures Grown(c0, c2)
  {
  }

  lemma {:induction false} CopyableKept(c0: seq<Cell>, c1: seq<Cell>, b: nat)
    requires Grown(c0, c1) && Copyable(c0, b)
    ensures Copyable(c1, b)
    decreases b
  {
    assert KeptCell(c0[b], c1[b], b);
    if c0[b].StackBlock? {
      var caps := c0[b].caps;
      forall k | 0 <= k < |caps|
        ensures (caps[k].Blk? ==> caps[k].x < b && Copyable(c1, caps[k].x)) && (caps[k].Var? ==> IsVar(c1, caps[k].x))
      {
        if caps[k].Blk? { CopyableKept(c0, c1, caps[k].x); }
        if caps[k].Var? { assert KeptCell(c0[caps[k].x], c1[caps[k].x], caps[k].x); }
      }
    }
  }

  lemma AssignableKept(c0: seq<Cell>, c1: seq<Cell>, c: Capture)
    requires Grown(c0, c1) && Assignable(c0, c)
    ensures Assignable(c1, c)
  {
    if c.Blk? { CopyableKept(c0, c1, c.x); }
    if c.Var? { assert KeptCell(c0[c.x], c1[c.x], c.x); }
  }

  /** The value of a __block variable, read through its forwarding pointer. */
  function Value(cells: seq<Cell>, x: nat): Field {
    if !IsVar(cells, x) then NO_FIELD
    else if IsVar(cells, cells[x].fwd) then cells[cells[x].fwd].val else NO_FIELD
  }

  ghost predicate ValuesKept(c0: seq<Cell>, c1: seq<Cell>) {
    forall x :: 0 <= x < |c0| && IsVar(c0, x) ==> IsVar(c1, x) && Value(c1, x) == Value(c0, x)
  }

  lemma ValuesTrans(c0: seq<Cell>, c1: seq<Cell>, c2: seq<Cell>)
    requires |c0| <= |c1| && ValuesKept(c0, c1) && ValuesKept(c1, c2)
    ensures ValuesKept(c0, c2)
  {
  }

  /** Capture d of a heap block stands for capture s of the stack block it was
      copied from: the same object, the same variable, the same block, or a
      heap copy of the same stack block. */
  ghost predicate Same(cells: seq<Cell>, s: Capture, d: Capture)
    decreases if s.Blk? then s.x + 1 else 0
  {
    match s
    case Var(x) =>
      && d.Var? && x < |cells| && d.x < |cells| && cells[d.x].HeapVar?
      && ((cells[x].StackVar? && cells[x].fwd == d.x) || (cells[x].HeapVar? && d.x == x))
    case Blk(x) =>
      && x < |cells|
      && (match cells[x]
          case StackBlock(caps) =>
            && d.Blk? && d.x < |cells| && cells[d.x].HeapBlock? && cells[d.x].lo == 0 && |cells[d.x].caps| == |caps|
            && forall k {:trigger caps[k]} :: 0 <= k < |caps| ==>
                 (caps[k].Blk? ==> caps[k].x < x) && Same(cells, caps[k], cells[d.x].caps[k])
          case _ => d == s)
    case _ => d == s
  }

  lemma {:induction false} SameKept(c0: seq<Cell>, c1: seq<Cell>, s: Capture, d: Capture)
    requires Grown(c0, c1) && Same(c0, s, d)
    ensures Same(c1, s, d)
    decreases if s.Blk? then s.x + 1 else 0
  {
    if s.Var? {
      assert KeptCell(c0[s.x], c1[s.x], s.x) && KeptCell(c0[d.x], c1[d.x], d.x);
    } else if s.Blk? {
      assert KeptCell(c0[s.x], c1[s.x], s.x);
      if c0[s.x].StackBlock? {
        assert KeptCell(c0[d.x], c1[d.x], d.x);
        var caps := c0[s.x].caps;
        forall k | 0 <= k < |caps| ensures (caps[k].Blk? ==> caps[k].x < s.x) && Same(c1, caps[k], c1[d.x].caps[k]) {
          SameKept(c0, c1, caps[k], c0[d.x].caps[k]);
        }
      }
    }
  }

  /** Filling in a block that is not complete yet breaks no earlier copy. */
  lemma {:induction false} SameStored(c0: seq<Cell>, r: nat, c: Cell, s: Capture, d: Capture)
    requires r < |c0| && c0[r].HeapBlock? && c.HeapBlock? && c0[r].lo > 0 && Same(c0, s, d)
    ensures Same(c0[r := c], s, d)
    decreases if s.Blk? then s.x + 1 else 0
  {
    if s.Blk? && c0[s.x].StackBlock? {
      var caps := c0[s.x].caps;
      forall k | 0 <= k < |caps|
        ensures (caps[k].Blk? ==> caps[k].x < s.x) && Same(c0[r := c], caps[k], c0[d.x].caps[k])
      {
        SameStored(c0, r, c, caps[k], c0[d.x].caps[k]);
      }
    }
  }

  // -------------------------------------------------------------- releasing

  /** Releasing lowers counts and frees whole cells; a block that is being
      deallocated is left to whoever started that. */
  predicate StableCell(a: Cell, b: Cell) {
    match a
    case HeapBlock(_, dealloc, caps, lo) =>
      if dealloc then b == a
      else b.Freed? || (b.HeapBlock? && !b.dealloc && b.caps == caps && b.lo == lo)
    case HeapVar(val, _, fwd) => b.Freed? || (b.HeapVar? && b.val == val && b.fwd == fwd)
    case _ => b == a
  }

  ghost predicate Stable(c0: seq<Cell>, c1: seq<Cell>) {
    |c1| == |c0| && forall i :: 0 <= i < |c0| ==> StableCell(c0[i], c1[i])
  }

  /** The blocks that could still be deallocated. */
  function Live(cells: seq<Cell>): nat {
    if cells == [] then 0
    else Live(cells[..|cells| - 1]) + (if IsLive(cells[|cells| - 1]) then 1 else 0)
  }

  predicate IsLive(c: Cell) { c.HeapBlock? && !c.dealloc }

  lemma {:induction false} LiveStable(c0: seq<Cell>, c1: seq<Cell>)
    requires Stable(c0, c1)
    ensures Live(c1) <= Live(c0)
  {
    var n := |c0| - 1;
    if c0 != [] {
      assert StableCell(c0[n], c1[n]);
      LiveStable(c0[..n], c1[..n]);
    }
  }

  /** No block is being deallocated. */
  predicate Quiet(cells: seq<Cell>) { forall i :: 0 <= i < |cells| && cells[i].HeapBlock? ==> !cells[i].dealloc }

  lemma {:induction false} LiveUpdate(cells: seq<Cell>, i: nat, c: Cell)
    requires i < |cells|
    ensures Live(cells[i := c]) == Live(cells) - (if IsLive(cells[i]) then 1 else 0) + (if IsLive(c) then 1 else 0)
  {
    var n := |cells| - 1;
    if i == n {
      assert cells[i := c][..n] == cells[..n];
    } else {
      assert cells[i := c][..n] == cells[..n][i := c];
      LiveUpdate(cells[..n], i, c);
    }
  }

  // ----------------------------------------------------------------- order

  /** Every block owns only blocks of lower rank: ownership has no cycles. */
  ghost predicate Ranked(cells: seq<Cell>, rank: seq<nat>) {
    && |rank| == |cells|
    && forall y, k :: 0 <= y < |cells| && cells[y].HeapBlock? && cells[y].lo <= k < |cells[y].caps| ==>
         Below(cells, rank, cells[y].caps[k], rank[y])
  }

  predicate Below(cells: seq<Cell>, rank: seq<nat>, c: Capture, top: nat)
    requires |rank| == |cells|
  {
    c.Blk? && c.x < |cells| && cells[c.x].HeapBlock? ==> rank[c.x] < top
  }

  /** Where blocks own no more than before, the ranks still do. */
  lemma RankedFewer(c0: seq<Cell>, c1: seq<Cell>, rank: seq<nat>)
    requires Ranked(c0, rank) && |c1| == |c0|
    requires forall y :: 0 <= y < |c1| && c1[y].HeapBlock? ==>
               c0[y].HeapBlock? && c1[y].caps == c0[y].caps && c0[y].lo <= c1[y].lo
    ensures Ranked(c1, rank)
  {
  }

  /** With no reference outside, no latched count and no half-done
      deallocation, nothing is left on the heap and every object has been given
      back: the runtime leaks nothing. */
  lemma NothingLeft(cells: seq<Cell>, retained: multiset<nat>, rank: seq<nat>)
    requires Sound(cells, multiset{}, retained) && Ranked(cells, rank)
    requires forall i :: 0 <= i < |cells| ==> Settled(cells[i], i)
    ensures forall i :: 0 <= i < |cells| ==> !cells[i].HeapBlock? && !cells[i].HeapVar?
    ensures retained == multiset{}
  {
    forall i | 0 <= i < |cells| ensures !cells[i].HeapBlock? {
      if cells[i].HeapBlock? { NoOwner(cells, retained, rank, i, Top(rank)); }
    }
    if c :| c in Total(cells) {
      var y := TotalOwner(cells, c);
      assert false;
    }
    assert Total(cells) == multiset{};
    assert forall o: nat :: retained[o] == 0;
    assert forall o: nat :: o !in retained;
  }

  /** No stack scope, latch or deallocation is pending on this cell. */
  predicate Settled(c: Cell, i: nat) {
    && (c.StackVar? ==> c.fwd == i)
    && (c.HeapBlock? ==> !c.dealloc && c.rc < LATCH)
    && (c.HeapVar? ==> c.rc < LATCH)
  }

  function Top(rank: seq<nat>): (t: nat)
    ensures forall i :: 0 <= i < |rank| ==> rank[i] <= t
  {
    if rank == [] then 0
    else
      var t := Top(rank[..|rank| - 1]);
      if rank[|rank| - 1] > t then rank[|rank| - 1] else t
  }

  /** A block with no outside reference has an owner of higher rank, which has
      an owner of higher rank, and so on. */
  lemma {:induction false} NoOwner(cells: seq<Cell>, retained: multiset<nat>, rank: seq<nat>, x: nat, top: nat)
    requires Sound(cells, multiset{}, retained) && Ranked(cells, rank)
    requires forall i :: 0 <= i < |cells| ==> Settled(cells[i], i)
    requires x < |cells| && cells[x].HeapBlock? && forall i :: 0 <= i < |rank| ==> rank[i] <= top
    ensures false
    decreases top - rank[x]
  {
    assert ShapeOk(cells[x], x) && CountOk(cells[x], x, multiset{} + Total(cells)) && Settled(cells[x], x);
    var y := TotalOwner(cells, Blk(x));
    assert Settled(cells[y], y);
    var k :| cells[y].lo <= k < |cells[y].caps| && cells[y].caps[k] == Blk(x);
    assert Below(cells, rank, cells[y].caps[k], rank[y]);
    NoOwner(cells, retained, rank, y, top);
  }
}
