/** When a reference count sticks: exactly when its cell once had as many
    references as the count can hold.  And how many references an operation
    makes, which bounds how many a cell can have had. */
module BlockPeaks {
  import opened Blocks
  import opened BlockFrames

  /** The references to the cell at address x. */
  function RefsTo(c: Cell, x: nat, refs: multiset<Capture>): nat {
    match c
    case HeapBlock(_, _, _, _) => refs[Blk(x)]
    case HeapVar(_, _, _) => refs[Var(x)]
    case _ => 0
  }

  /** The most references each cell has had at a time, now that there are these. */
  function Raised(peak: seq<nat>, cells: seq<Cell>, holds: multiset<Capture>): seq<nat> {
    var refs := holds + Total(cells);
    seq(|cells|, (x: nat) requires x < |cells| =>
      var n := RefsTo(cells[x], x, refs); if x < |peak| && n < peak[x] then peak[x] else n)
  }

  /** The count is stuck if and only if the cell once had LATCH references. */
  predicate LatchOk(c: Cell, most: nat) { c.HeapBlock? || c.HeapVar? ==> (c.rc == LATCH <==> most >= LATCH) }

  /** Peak is the most references that each cell has had at a time, and at least
      as many have been made in all. */
  ghost predicate Recorded(cells: seq<Cell>, holds: multiset<Capture>, peak: seq<nat>, made: nat) {
    && |peak| == |cells|
    && forall x {:trigger peak[x]} :: 0 <= x < |cells| ==>
         RefsTo(cells[x], x, holds + Total(cells)) <= peak[x] <= made && LatchOk(cells[x], peak[x])
  }

  /** A count that stuck stays stuck, and one sticks only at LATCH references. */
  predicate Sticks(a: Cell, b: Cell, x: nat, refs: multiset<Capture>) {
    match b
    case HeapBlock(rc, _, _, _) =>
      a.HeapBlock? && (a.rc == LATCH ==> rc == LATCH) && (rc == LATCH ==> a.rc == LATCH || refs[Blk(x)] >= LATCH)
    case HeapVar(_, rc, _) =>
      a.HeapVar? && (a.rc == LATCH ==> rc == LATCH) && (rc == LATCH ==> a.rc == LATCH || refs[Var(x)] >= LATCH)
    case _ => true
  }

  predicate StartsLoose(c: Cell) { c.HeapBlock? || c.HeapVar? ==> c.rc < LATCH }

  /** From one state to the next, with these references made on the way. */
  ghost predicate Counted(c0: seq<Cell>, h0: multiset<Capture>, c1: seq<Cell>, h1: multiset<Capture>,
                          more: multiset<Capture>) {
    && |c0| <= |c1| && h1 + Total(c1) <= h0 + Total(c0) + more
    && (forall x {:trigger Sticks(c0[x], c1[x], x, h1 + Total(c1))} :: 0 <= x < |c0| ==>
          Sticks(c0[x], c1[x], x, h1 + Total(c1)))
    && (forall x {:trigger StartsLoose(c1[x])} :: |c0| <= x < |c1| ==> StartsLoose(c1[x]))
  }

  lemma RecordedNext(c0: seq<Cell>, h0: multiset<Capture>, peak: seq<nat>, made: nat, c1: seq<Cell>,
                     h1: multiset<Capture>, r0: multiset<nat>, r1: multiset<nat>, more: multiset<Capture>)
    requires Recorded(c0, h0, peak, made) && Counted(c0, h0, c1, h1, more) && Sound(c0, h0, r0) && Sound(c1, h1, r1)
    ensures Recorded(c1, h1, Raised(peak, c1, h1), made + |more|)
  {
    var refs, peak' := h1 + Total(c1), Raised(peak, c1, h1);
    forall x | 0 <= x < |c1|
      ensures RefsTo(c1[x], x, refs) <= peak'[x] <= made + |more| && LatchOk(c1[x], peak'[x])
    {
      assert CountOk(c1[x], x, refs);
      var self := if c1[x].HeapBlock? then Blk(x) else Var(x);
      assert |more[self := 0]| == |more| - more[self];
      if x < |c0| {
        assert LatchOk(c0[x], peak[x]) && Sticks(c0[x], c1[x], x, refs);
      } else {
        assert StartsLoose(c1[x]) && !TargetOk(c0, self);
      }
    }
  }

  // ---------------------------------------------------------- single steps

  /** One cell changes. */
  lemma CountedAt(cells: seq<Cell>, holds: multiset<Capture>, x: nat, c: Cell, holds': multiset<Capture>,
                  more: multiset<Capture>)
    requires x < |cells| && holds' + OwnedBy(x, c) <= holds + OwnedBy(x, cells[x]) + more
    requires Sticks(cells[x], c, x, holds' + Total(cells[x := c]))
    ensures Counted(cells, holds, cells[x := c], holds', more)
  {
    TotalUpdate(cells, x, c);
    Moved(holds, Total(cells), OwnedBy(x, cells[x]), holds', OwnedBy(x, c), more);
  }

  lemma Moved(holds: multiset<Capture>, total: multiset<Capture>, owned: multiset<Capture>,
              holds': multiset<Capture>, owned': multiset<Capture>, more: multiset<Capture>)
    requires owned <= total && holds' + owned' <= holds + owned + more
    ensures holds' + (total - owned + owned') <= holds + total + more
  {
    assert total == total - owned + owned;
    assert holds' + (total - owned + owned') == (total - owned) + (holds' + owned');
  }

  /** A cell is added. */
  lemma CountedMore(cells: seq<Cell>, holds: multiset<Capture>, c: Cell, holds': multiset<Capture>,
                    more: multiset<Capture>)
    requires StartsLoose(c) && holds' + OwnedBy(|cells|, c) <= holds + more
    ensures Counted(cells, holds, cells + [c], holds', more)
  {
    TotalAppend(cells, c);
    assert holds' + Total(cells + [c]) == Total(cells) + (holds' + OwnedBy(|cells|, c));
  }

  /** Only the references outside change. */
  lemma CountedSame(cells: seq<Cell>, holds: multiset<Capture>, holds': multiset<Capture>, more: multiset<Capture>)
    requires holds' <= holds + more
    ensures Counted(cells, holds, cells, holds', more)
  {
  }

  // ------------------------------------------------------------------ cost

  /** The references that assigning this capture makes, at most. */
  function Cost(cells: seq<Cell>, c: Capture): nat
    decreases if c.Blk? then c.x + 1 else 0, 0
  {
    match c
    case Var(_) => 2
    case Blk(x) => if x < |cells| && cells[x].StackBlock? then 1 + CostAll(cells, x, cells[x].caps) else 1
    case _ => 1
  }

  /** The same for the captures of the block at address b. */
  function CostAll(cells: seq<Cell>, b: nat, caps: seq<Capture>): nat
    decreases b, |caps| + 1
  {
    if caps == [] then 0
    else
      var c := caps[|caps| - 1];
      CostAll(cells, b, caps[..|caps| - 1]) + if c.Blk? && c.x >= b then 1 else Cost(cells, c)
  }

  lemma {:induction false} CostKept(c0: seq<Cell>, c1: seq<Cell>, c: Capture)
    requires Grown(c0, c1) && (c.Blk? ==> c.x < |c0|)
    ensures Cost(c1, c) == Cost(c0, c)
    decreases if c.Blk? then c.x + 1 else 0, 0
  {
    if c.Blk? {
      assert KeptCell(c0[c.x], c1[c.x], c.x);
      if c0[c.x].StackBlock? { CostAllKept(c0, c1, c.x, c0[c.x].caps); }
    }
  }

  lemma {:induction false} CostAllKept(c0: seq<Cell>, c1: seq<Cell>, b: nat, caps: seq<Capture>)
    requires Grown(c0, c1) && b < |c0|
    ensures CostAll(c1, b, caps) == CostAll(c0, b, caps)
    decreases b, |caps| + 1
  {
    if caps != [] {
      var c := caps[|caps| - 1];
      CostAllKept(c0, c1, b, caps[..|caps| - 1]);
      if c.Blk? && c.x < b { CostKept(c0, c1, c); }
    }
  }
}
