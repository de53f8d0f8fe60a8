/** The block runtime: _Block_copy, _Block_release, _Block_byref_copy,
    _Block_byref_release, _Block_object_assign and _Block_object_dispose, with
    the compiler's copy and dispose helpers as loops over the captures. */
module BlockRuntime {
  import opened Blocks
  import opened BlockFrames
  import opened BlockPeaks

  class Runtime {
    /** The address space, and the net retains of each object. */
    var cells: seq<Cell>
    var retained: multiset<nat>
    /** The references handed out and not given back. */
    var holds: multiset<Capture>
    /** A witness that ownership has no cycles. */
    ghost var rank: seq<nat>
    /** Every call of free, by address. */
    ghost var frees: multiset<nat>
    /** The most references that each cell has had at a time, and how many have
        been made in all. */
    ghost var peak: seq<nat>
    ghost var made: nat

    ghost predicate Valid()
      reads this
    {
      Whole(cells, holds, retained, rank, frees, peak, made)
    }

    /** A whole new state that is known to be sound, in which nothing has been
        freed and to which these references have been added. */
    method Become(cells': seq<Cell>, holds': multiset<Capture>, retained': multiset<nat>, ghost rank': seq<nat>,
                  ghost more: multiset<Capture>)
      requires Valid() && AllOk(cells', holds', retained', rank') && SameFreed(cells, cells')
      requires Counted(cells, holds, cells', holds', more)
      modifies this`cells, this`holds, this`retained, this`rank, this`peak, this`made
      ensures Valid() && cells == cells' && holds == holds' && retained == retained' && rank == rank'
      ensures peak == Raised(old(peak), cells, holds) && made == old(made) + |more|
    {
      WholeNext(cells, holds, retained, rank, frees, peak, made, cells', holds', retained', rank', more);
      Set(cells', holds', retained', rank', Raised(peak, cells', holds'), made + |more|);
    }

    method Set(cells': seq<Cell>, holds': multiset<Capture>, retained': multiset<nat>, ghost rank': seq<nat>,
               ghost peak': seq<nat>, ghost made': nat)
      requires Whole(cells', holds', retained', rank', frees, peak', made')
      modifies this`cells, this`holds, this`retained, this`rank, this`peak, this`made
      ensures Valid() && cells == cells' && holds == holds' && retained == retained' && rank == rank'
      ensures peak == peak' && made == made'
    {
      cells, holds, retained, rank, peak, made := cells', holds', retained', rank', peak', made';
    }

    /** free: only a block or variable on the heap may be freed, so nothing is
        freed twice. */
    method FreeCell(x: nat, holds': multiset<Capture>)
      requires x < |cells| && (cells[x].HeapBlock? || cells[x].HeapVar?)
      requires Valid() && AllOk(cells[x := Freed], holds', retained, rank)
      requires Counted(cells, holds, cells[x := Freed], holds', multiset{})
      modifies this`cells, this`holds, this`frees, this`peak
      ensures Valid() && cells == old(cells)[x := Freed] && holds == holds' && frees == old(frees) + multiset{x}
      ensures peak == Raised(old(peak), cells, holds)
    {
      RecordedNext(cells, holds, peak, made, cells[x := Freed], holds', retained, retained, multiset{});
      OnceMore(cells, frees, x);
      peak := Raised(peak, cells[x := Freed], holds');
      cells, holds, frees := cells[x := Freed], holds', frees + multiset{x};
    }

    constructor ()
      ensures Valid() && cells == [] && holds == multiset{} && retained == multiset{} && frees == multiset{}
      ensures made == 0
    {
      cells, retained, holds, rank, frees := [], multiset{}, multiset{}, [], multiset{};
      peak, made := [], 0;
    }

    // ------------------------------------------------------------- copying

    /** _Block_copy: one more reference to a heap block, a heap copy of a stack
        block. */
    method Copy(b: nat) returns (r: nat)
      requires Valid() && Copyable(cells, b)
      modifies this
      ensures Valid() && holds == old(holds) + multiset{Blk(r)}
      ensures CopyFrame(old(cells), cells, b) && Same(cells, Blk(b), Blk(r))
      ensures if old(cells)[b].StackBlock? then |old(cells)| <= r && cells[r].rc == 1 else r == b
      ensures old(cells)[b].HeapBlock? ==> OneMore(old(cells), cells, b)
      ensures made <= old(made) + Cost(old(cells), Blk(b))
      decreases b + 1, 1
    {
      if cells[b].HeapBlock? {
        RetainBlock(b);
        return b;
      } else if cells[b].Global? {
        AddHold(cells, holds, retained, Blk(b));
        CountedSame(cells, holds, holds + multiset{Blk(b)}, multiset{Blk(b)});
        Become(cells, holds + multiset{Blk(b)}, retained, rank, multiset{Blk(b)});
        return b;
      }
      r := CopyStackBlock(b, cells[b].caps);
    }

    /** latching_incr_int on a block */
    method RetainBlock(b: nat)
      requires Valid() && b < |cells| && IsLive(cells[b])
      modifies this
      ensures Valid() && holds == old(holds) + multiset{Blk(b)}
      ensures CopyFrame(old(cells), cells, b) && OneMore(old(cells), cells, b) && made == old(made) + 1
    {
      var c := HeapBlock(Incr(cells[b].rc), false, cells[b].caps, cells[b].lo);
      RetainSound(cells, holds, retained, b, c, Blk(b));
      RetainFrame(cells, rank, b, c);
      Become(cells[b := c], holds + multiset{Blk(b)}, retained, rank, multiset{Blk(b)});
    }

    method CopyStackBlock(b: nat, caps: seq<Capture>) returns (r: nat)
      requires Valid() && Copyable(cells, b) && cells[b] == StackBlock(caps)
      modifies this
      ensures Valid() && holds == old(holds) + multiset{Blk(r)}
      ensures CopyFrame(old(cells), cells, b) && Same(cells, Blk(b), Blk(r))
      ensures |old(cells)| <= r && cells[r].rc == 1 && made <= old(made) + 1 + CostAll(old(cells), b, caps)
      decreases b + 1, 0, 1
    {
      r := Malloc(caps);
      CopyableKept(old(cells), cells, b);
      CostAllKept(old(cells), cells, b, caps);
      assert KeptCell(old(cells)[b], cells[b], b);
      label filled:
      var own := CopyHelper(b, caps);
      ghost var c2 := cells;
      FillFrame(old(cells), old@filled(cells), c2, b, r, HeapBlock(1, false, caps, |caps|));
      StoreCaptures(r, caps, own, old(holds));
      StoreSame(c2, b, r, caps, own);
      StoredFrame(old(cells), c2, b, r, HeapBlock(1, false, own, 0));
    }

    /** malloc and memmove; the reference count starts at 1. */
    method Malloc(caps: seq<Capture>) returns (r: nat)
      requires Valid()
      modifies this
      ensures Valid() && r == |old(cells)| && holds == old(holds) + multiset{Blk(r)}
      ensures cells == old(cells) + [HeapBlock(1, false, caps, |caps|)]
      ensures Grown(old(cells), cells) && ValuesKept(old(cells), cells) && made == old(made) + 1
    {
      r := |cells|;
      var c := HeapBlock(1, false, caps, |caps|);
      AddHeapBlock(cells, holds, retained, caps);
      AppendFrame(cells, holds, retained, rank, c);
      assert caps[|caps|..] == [];
      CountedMore(cells, holds, c, holds + multiset{Blk(r)}, multiset{Blk(r)});
      Become(cells + [c], holds + multiset{Blk(r)}, retained, rank + [0], multiset{Blk(r)});
    }

    /** The copy helper: assign every capture in turn. */
    method CopyHelper(b: nat, caps: seq<Capture>) returns (own: seq<Capture>)
      requires Valid() && Copyable(cells, b) && cells[b] == StackBlock(caps)
      modifies this
      ensures Valid() && holds == old(holds) + multiset(own)
      ensures CopyFrame(old(cells), cells, b) && |own| == |caps| && AllSame(cells, caps, own)
      ensures made <= old(made) + CostAll(old(cells), b, caps)
      decreases b + 1, 0, 0
    {
      own := [];
      CopyStart(cells, holds, b, caps);
      while |own| < |caps|
        invariant Valid() && holds == old(holds) + multiset(own)
        invariant CopyFrame(old(cells), cells, b) && AllSame(cells, caps, own)
        invariant made <= old(made) + CostAll(old(cells), b, caps[..|own|])
      {
        var d := CopyNext(b, caps, own, old(cells), old(holds), old(made));
        own := own + [d];
      }
      assert caps[..|own|] == caps;
    }

    /** One field of the copy helper. */
    method CopyNext(b: nat, caps: seq<Capture>, own: seq<Capture>, ghost c0: seq<Cell>, ghost h0: multiset<Capture>,
                    ghost m0: nat)
      returns (d: Capture)
      requires Copyable(c0, b) && c0[b] == StackBlock(caps) && |own| < |caps|
      requires Valid() && holds == h0 + multiset(own) && CopyFrame(c0, cells, b) && AllSame(cells, caps, own)
      requires made <= m0 + CostAll(c0, b, caps[..|own|])
      modifies this
      ensures Valid() && holds == h0 + multiset(own + [d]) && CopyFrame(c0, cells, b)
      ensures AllSame(cells, caps, own + [d]) && made <= m0 + CostAll(c0, b, caps[..|own| + 1])
      decreases b, 9
    {
      ghost var c1 := cells;
      NextCapture(c0, cells, b, caps, |own|);
      d := Assign(caps[|own|], FromBlock, b);
      NextSame(c0, c1, cells, b, caps, own, d);
      HeldMore(h0, own, d);
      NextCost(c0, c1, b, caps, |own|);
    }

    /** The captures become the block's own. */
    method StoreCaptures(r: nat, caps: seq<Capture>, own: seq<Capture>, ghost rest: multiset<Capture>)
      requires Valid() && r < |cells| && cells[r] == HeapBlock(1, false, caps, |caps|)
      requires holds == rest + multiset{Blk(r)} + multiset(own)
      modifies this
      ensures Valid() && holds == rest + multiset{Blk(r)} && cells == old(cells)[r := HeapBlock(1, false, own, 0)]
      ensures made == old(made)
    {
      HeldLess(rest + multiset{Blk(r)}, own);
      StoreOk(cells, rest, retained, rank, r, caps, own);
      Become(cells[r := HeapBlock(1, false, own, 0)], holds - multiset(own), retained, rank[r := Top(rank) + 1],
             multiset{});
    }

    /** _Block_object_assign: a reference of the capture's kind for a heap
        block to keep.  For a variable's helper it takes no reference. */
    method Assign(c: Capture, caller: Caller, ghost bound: nat) returns (d: Capture)
      requires Valid() && (caller.FromBlock? ==> Assignable(cells, c) && (c.Blk? ==> c.x <= bound))
      modifies this
      ensures Valid() && (caller.FromByref? ==> d == c && unchanged(this))
      ensures caller.FromBlock? ==>
                holds == old(holds) + multiset{d} && CopyFrame(old(cells), cells, bound) && Same(cells, c, d)
      ensures caller.FromBlock? ==> made <= old(made) + Cost(old(cells), c)
      decreases if c.Blk? && caller.FromBlock? then c.x + 1 else 0, if caller.FromBlock? then 3 else 0
    {
      if caller.FromByref? { return c; }
      d := AssignForBlock(c, bound);
    }

    method AssignForBlock(c: Capture, ghost bound: nat) returns (d: Capture)
      requires Valid() && Assignable(cells, c) && (c.Blk? ==> c.x <= bound)
      modifies this
      ensures Valid() && holds == old(holds) + multiset{d}
      ensures CopyFrame(old(cells), cells, bound)
      ensures Same(cells, c, d) && made <= old(made) + Cost(old(cells), c)
      decreases if c.Blk? then c.x + 1 else 0, 2
    {
      match c
      case Blk(x) =>
        var r := Copy(x);
        FrameWider(old(cells), cells, x, bound);
        d := Blk(r);
      case Var(x) =>
        var y := ByrefCopy(x);
        FrameWider(old(cells), cells, 0, bound);
        d := Var(y);
      case Obj(o) =>
        AddObject(cells, holds, retained, o);
        CountedSame(cells, holds, holds + multiset{c}, multiset{c});
        Become(cells, holds + multiset{c}, retained + multiset{o}, rank, multiset{c});
        NoFrame(cells, bound, c);
        d := c;
      case Plain(_) =>
        AddHold(cells, holds, retained, c);
        CountedSame(cells, holds, holds + multiset{c}, multiset{c});
        Become(cells, holds + multiset{c}, retained, rank, multiset{c});
        NoFrame(cells, bound, c);
        d := c;
    }

    /** _Block_byref_copy: the heap variable that this one forwards to, made now
        if the variable is still on the stack only. */
    method ByrefCopy(x: nat) returns (y: nat)
      requires Valid() && IsVar(cells, x)
      modifies this
      ensures Valid() && holds == old(holds) + multiset{Var(y)}
      ensures CopyFrame(old(cells), cells, 0)
      ensures Same(cells, Var(x), Var(y)) && made <= old(made) + 2
      ensures var f := old(cells)[x].fwd;
              f < |old(cells)| &&
              if old(cells)[f].HeapVar? then y == f && OneMore(old(cells), cells, y)
              else y == |old(cells)| && cells[y].rc == 2 && cells[x].fwd == y
      decreases 0, 1, 2
    {
      ForwardOk(cells, holds, retained, x);
      if cells[cells[x].fwd].StackVar? {
        y := MoveToHeap(x);
      } else {
        y := cells[x].fwd;
        RetainVar(y);
      }
    }

    /** latching_incr_int on a heap variable */
    method RetainVar(y: nat)
      requires Valid() && y < |cells| && cells[y].HeapVar?
      modifies this
      ensures Valid() && holds == old(holds) + multiset{Var(y)}
      ensures CopyFrame(old(cells), cells, 0) && OneMore(old(cells), cells, y) && made == old(made) + 1
    {
      var c := HeapVar(cells[y].val, Incr(cells[y].rc), cells[y].fwd);
      RetainSound(cells, holds, retained, y, c, Var(y));
      RetainFrame(cells, rank, y, c);
      Become(cells[y := c], holds + multiset{Var(y)}, retained, rank, multiset{Var(y)});
    }

    /** The heap copy starts with two references: the caller's and the stack's. */
    method MoveToHeap(x: nat) returns (y: nat)
      requires Valid() && x < |cells| && cells[x].StackVar? && cells[x].fwd == x
      modifies this
      ensures Valid() && holds == old(holds) + multiset{Var(y)}
      ensures CopyFrame(old(cells), cells, 0)
      ensures Same(cells, Var(x), Var(y)) && made == old(made) + 2
      ensures y == |old(cells)| && cells[y].rc == 2 && cells[x].fwd == y
      decreases 0, 1, 1
    {
      y := |cells|;
      var val := KeepField(cells[x].val);
      MoveOk(cells, holds, retained, rank, x);
      Become(cells[x := StackVar(val, y)] + [HeapVar(val, 2, y)], holds + multiset{Var(y)}, retained, rank + [0],
             multiset{Var(y), Var(y)});
    }

    /** The heap copy's value: the keep helper's, or a bitwise copy. */
    method KeepField(val: Field) returns (copy: Field)
      requires Valid()
      modifies this
      ensures Valid() && unchanged(this) && copy == val
      decreases 0, 1, 0
    {
      if !val.helper { return val; }
      var kept := Assign(val.content, FromByref, 0);
      copy := Field(kept, true);
    }

    // ----------------------------------------------------------- releasing

    /** _Block_release: one reference less; the last one deallocates. */
    method Release(b: nat)
      requires Valid() && b < |cells| && (cells[b].StackBlock? || Blk(b) in holds)
      modifies this
      ensures Valid() && Stable(old(cells), cells) && made == old(made)
      ensures holds == if old(cells)[b].StackBlock? then old(holds) else old(holds) - multiset{Blk(b)}
      ensures old(cells)[b].HeapBlock? ==>
                if old(cells)[b].rc == 1 then cells[b].Freed? else OneFewer(old(cells), cells, b)
      decreases Live(cells), 1
    {
      HoldTarget(cells, holds, retained, Blk(b));
      if cells[b].Global? {
        DropHold(cells, holds, retained, Blk(b));
        CountedSame(cells, holds, holds - multiset{Blk(b)}, multiset{});
        Become(cells, holds - multiset{Blk(b)}, retained, rank, multiset{});
      } else if cells[b].HeapBlock? {
        var (rc, last) := Decr(cells[b].rc, cells[b].dealloc);
        if last {
          Deallocate(b);
        } else {
          LowerSound(cells, holds, retained, rank, b, rc);
          var c := HeapBlock(rc, false, cells[b].caps, cells[b].lo);
          Become(cells[b := c], holds - multiset{Blk(b)}, retained, rank, multiset{});
        }
      }
    }

    /** The last reference is given up, and DEALLOCATING is set. */
    method Mark(b: nat)
      requires Valid() && b < |cells| && Blk(b) in holds && IsLive(cells[b]) && cells[b].rc == 1
      modifies this
      ensures Valid() && cells == old(cells)[b := HeapBlock(0, true, old(cells)[b].caps, old(cells)[b].lo)]
      ensures holds == old(holds) - multiset{Blk(b)} && made == old(made) && Live(cells) < Live(old(cells))
    {
      var c := HeapBlock(0, true, cells[b].caps, cells[b].lo);
      MarkSound(cells, holds, retained, rank, b);
      LiveUpdate(cells, b, c);
      Become(cells[b := c], holds - multiset{Blk(b)}, retained, rank, multiset{});
    }

    /** Mark the block, run its dispose helper, free it. */
    method Deallocate(b: nat)
      requires Valid() && b < |cells| && Blk(b) in holds && IsLive(cells[b]) && cells[b].rc == 1
      modifies this
      ensures Valid() && Stable(old(cells), cells) && holds == old(holds) - multiset{Blk(b)} && cells[b].Freed?
      ensures made == old(made)
      decreases Live(cells), 0
    {
      Mark(b);
      ghost var c1 := cells;
      DisposeHelper(b);
      FreeSound(old(cells), c1, cells, holds, retained, rank, b);
      FreeCell(b, holds);
    }

    /** The dispose helper: dispose of every capture in turn. */
    method DisposeHelper(b: nat)
      requires Valid() && b < |cells| && cells[b].HeapBlock? && cells[b].dealloc
      modifies this
      ensures Valid() && holds == old(holds) && StableBut(old(cells), cells, b) && made == old(made)
      ensures cells[b] == HeapBlock(0, true, old(cells)[b].caps, |old(cells)[b].caps|)
      decreases Live(cells), 3
    {
      assert ShapeOk(cells[b], b);
      while cells[b].lo < |cells[b].caps|
        invariant Valid() && holds == old(holds) && StableBut(old(cells), cells, b) && made == old(made)
        invariant cells[b].HeapBlock? && cells[b].dealloc && cells[b].rc == 0 && cells[b].caps == old(cells)[b].caps
        invariant cells[b].lo <= |cells[b].caps|
        decreases if cells[b].HeapBlock? then |cells[b].caps| - cells[b].lo else 0
      {
        ghost var c1 := cells;
        var cap := TakeCapture(b);
        StableButTrans(old(cells), c1, cells, b);
        LiveBut(old(cells), cells, b);
        ghost var c2 := cells;
        Dispose(cap, FromBlock);
        assert StableCell(c2[b], cells[b]);
        StableButTrans(old(cells), c2, cells, b);
      }
    }

    /** The next capture of a deallocating block becomes the helper's to give up. */
    method TakeCapture(b: nat) returns (cap: Capture)
      requires Valid() && b < |cells| && cells[b].HeapBlock? && cells[b].dealloc && cells[b].lo < |cells[b].caps|
      modifies this
      ensures Valid() && holds == old(holds) + multiset{cap} && StableBut(old(cells), cells, b) && made == old(made)
      ensures cells[b] == HeapBlock(old(cells)[b].rc, true, old(cells)[b].caps, old(cells)[b].lo + 1)
    {
      cap := cells[b].caps[cells[b].lo];
      var c := HeapBlock(cells[b].rc, true, cells[b].caps, cells[b].lo + 1);
      TakeSound(cells, holds, retained, rank, b, c, cap);
      Become(cells[b := c], holds + multiset{cap}, retained, rank, multiset{});
    }

    /** _Block_object_dispose: give up a reference that a heap block kept.  A
        variable's helper had taken none, and none is given up for it. */
    method Dispose(c: Capture, caller: Caller)
      requires Valid() && (caller.FromBlock? ==> c in holds)
      modifies this
      ensures Valid() && made == old(made) && (caller.FromByref? ==> unchanged(this))
      ensures caller.FromBlock? ==> holds == old(holds) - multiset{c} && Stable(old(cells), cells)
      decreases Live(cells), if caller.FromBlock? then 2 else 0
    {
      if caller.FromByref? { return; }
      HoldTarget(cells, holds, retained, c);
      match c
      case Blk(x) =>
        Release(x);
      case Var(x) =>
        assert ShapeOk(cells[x], x);
        ByrefRelease(x);
      case _ =>
        DisposeDirect(c);
    }

    /** An object is released; any other value is just forgotten. */
    method DisposeDirect(c: Capture)
      requires Valid() && c in holds && !c.Blk? && !c.Var?
      modifies this
      ensures Valid() && cells == old(cells) && holds == old(holds) - multiset{c} && Stable(cells, cells)
      ensures made == old(made)
    {
      DropDirect(cells, holds, retained, rank, c);
      Become(cells, holds - multiset{c}, if c.Obj? then retained - multiset{c.o} else retained, rank,
             multiset{});
    }

    /** _Block_byref_release: one reference less to the variable's heap cell. */
    method ByrefRelease(x: nat)
      requires Valid() && IsVar(cells, x)
      requires cells[x].fwd < |cells| && cells[cells[x].fwd].HeapVar? ==> Var(cells[x].fwd) in holds
      modifies this
      ensures Valid() && Stable(old(cells), cells) && made == old(made)
      ensures var f := old(cells)[x].fwd;
              f < |cells| &&
              if old(cells)[f].HeapVar? then
                holds == old(holds) - multiset{Var(f)} &&
                (if old(cells)[f].rc == 1 then cells[f].Freed? else OneFewer(old(cells), cells, f))
              else holds == old(holds) && cells == old(cells)
      decreases Live(cells), 1, 2
    {
      ForwardOk(cells, holds, retained, x);
      var f := cells[x].fwd;
      if cells[f].HeapVar? { ReleaseVar(f); }
    }

    /** latching_decr_int_should_deallocate on a heap variable */
    method ReleaseVar(f: nat)
      requires Valid() && f < |cells| && cells[f].HeapVar? && Var(f) in holds
      modifies this
      ensures Valid() && Stable(old(cells), cells) && made == old(made) && holds == old(holds) - multiset{Var(f)}
      ensures if old(cells)[f].rc == 1 then cells[f].Freed? else OneFewer(old(cells), cells, f)
      decreases Live(cells), 1, 1
    {
      assert ShapeOk(cells[f], f);
      var val := cells[f].val;
      var (rc, last) := Decr(cells[f].rc, false);
      LowerVarSound(cells, holds, retained, rank, f, if last then Freed else HeapVar(val, rc, f));
      LowerVarCounted(cells, holds, f, if last then Freed else HeapVar(val, rc, f));
      if last {
        DestroyField(val);
        FreeCell(f, holds - multiset{Var(f)});
      } else {
        Become(cells[f := HeapVar(val, rc, f)], holds - multiset{Var(f)}, retained, rank, multiset{});
      }
    }

    /** The destroy helper, if there is one. */
    method DestroyField(val: Field)
      requires Valid()
      modifies this
      ensures Valid() && unchanged(this)
      decreases Live(cells), 1, 0
    {
      if val.helper { Dispose(val.content, FromByref); }
    }
  }

  /** Copying block b leaves the heap blocks at higher addresses alone. */
  ghost predicate UntouchedAbove(c0: seq<Cell>, c1: seq<Cell>, b: nat) {
    |c0| <= |c1| && forall y :: b < y < |c0| && c0[y].HeapBlock? ==> c1[y] == c0[y]
  }

  ghost predicate AllOk(cells: seq<Cell>, holds: multiset<Capture>, retained: multiset<nat>, rank: seq<nat>) {
    Sound(cells, holds, retained) && Ranked(cells, rank)
  }

  ghost predicate Whole(cells: seq<Cell>, holds: multiset<Capture>, retained: multiset<nat>, rank: seq<nat>,
                        frees: multiset<nat>, peak: seq<nat>, made: nat) {
    AllOk(cells, holds, retained, rank) && OnceFreed(cells, frees) && Recorded(cells, holds, peak, made)
  }

  lemma WholeNext(c0: seq<Cell>, h0: multiset<Capture>, r0: multiset<nat>, k0: seq<nat>, frees: multiset<nat>,
                  peak: seq<nat>, made: nat, c1: seq<Cell>, h1: multiset<Capture>, r1: multiset<nat>, k1: seq<nat>,
                  more: multiset<Capture>)
    requires Whole(c0, h0, r0, k0, frees, peak, made) && AllOk(c1, h1, r1, k1) && SameFreed(c0, c1)
    requires Counted(c0, h0, c1, h1, more)
    ensures Whole(c1, h1, r1, k1, frees, Raised(peak, c1, h1), made + |more|)
  {
    RecordedNext(c0, h0, peak, made, c1, h1, r0, r1, more);
    StillOnce(c0, c1, frees);
  }

  lemma StillOnce(c0: seq<Cell>, c1: seq<Cell>, frees: multiset<nat>)
    requires OnceFreed(c0, frees) && SameFreed(c0, c1)
    ensures OnceFreed(c1, frees)
  {
  }

  lemma OnceMore(cells: seq<Cell>, frees: multiset<nat>, x: nat)
    requires OnceFreed(cells, frees) && x < |cells| && !cells[x].Freed?
    ensures OnceFreed(cells[x := Freed], frees + multiset{x})
  {
  }

  /** The count of cell x, and nothing else, goes up by one, unless it is stuck. */
  ghost predicate OneMore(c0: seq<Cell>, c1: seq<Cell>, x: nat) {
    && x < |c0| == |c1| && (c0[x].HeapBlock? || c0[x].HeapVar?)
    && c1 == if c0[x].rc == 32767 then c0 else c0[x := c0[x].(rc := c0[x].rc + 1)]
  }

  /** The count of cell x, and nothing else, goes down by one, unless it is stuck. */
  ghost predicate OneFewer(c0: seq<Cell>, c1: seq<Cell>, x: nat) {
    && x < |c0| == |c1| && (c0[x].HeapBlock? || c0[x].HeapVar?) && c0[x].rc > 1
    && c1 == if c0[x].rc == 32767 then c0 else c0[x := c0[x].(rc := c0[x].rc - 1)]
  }

  lemma DropDirect(cells: seq<Cell>, holds: multiset<Capture>, retained: multiset<nat>, rank: seq<nat>, c: Capture)
    requires AllOk(cells, holds, retained, rank) && c in holds && !c.Blk? && !c.Var?
    ensures AllOk(cells, holds - multiset{c}, if c.Obj? then retained - multiset{c.o} else retained, rank)
            && Stable(cells, cells) && Counted(cells, holds, cells, holds - multiset{c}, multiset{})
  {
    CountedSame(cells, holds, holds - multiset{c}, multiset{});
    if c.Obj? { DropObject(cells, holds, retained, c.o); } else { DropHold(cells, holds, retained, c); }
  }

  lemma NoFrame(cells: seq<Cell>, b: nat, c: Capture)
    ensures CopyFrame(cells, cells, b)
    ensures !c.Blk? && !c.Var? ==> Same(cells, c, c)
  {
  }

  /** What copying block b may change. */
  ghost predicate CopyFrame(c0: seq<Cell>, c1: seq<Cell>, b: nat) {
    Grown(c0, c1) && ValuesKept(c0, c1) && UntouchedAbove(c0, c1, b) && (Quiet(c0) ==> Quiet(c1))
  }

  ghost predicate AllSame(cells: seq<Cell>, caps: seq<Capture>, own: seq<Capture>) {
    |own| <= |caps| && forall k :: 0 <= k < |own| ==> Same(cells, caps[k], own[k])
  }

  /** One more reference to a counted cell. */
  lemma RetainSound(cells: seq<Cell>, holds: multiset<Capture>, retained: multiset<nat>, x: nat, c: Cell, self: Capture)
    requires Sound(cells, holds, retained) && x < |cells|
    requires (self == Blk(x) && IsLive(cells[x])
              && c == HeapBlock(Incr(cells[x].rc), false, cells[x].caps, cells[x].lo))
             || (self == Var(x) && cells[x].HeapVar? && c == HeapVar(cells[x].val, Incr(cells[x].rc), cells[x].fwd))
    ensures Sound(cells[x := c], holds + multiset{self}, retained)
    ensures Counted(cells, holds, cells[x := c], holds + multiset{self}, multiset{self})
  {
    assert CountOk(cells[x], x, holds + Total(cells)) && ShapeOk(cells[x], x);
    Recount(cells, holds, retained, x, c, self, holds + multiset{self});
    TotalSame(cells, x, c);
    CountedAt(cells, holds, x, c, holds + multiset{self}, multiset{self});
  }

  lemma RetainFrame(cells: seq<Cell>, rank: seq<nat>, x: nat, c: Cell)
    requires x < |cells| && KeptCell(cells[x], c, x) && (cells[x].HeapBlock? || cells[x].HeapVar?)
    ensures CopyFrame(cells, cells[x := c], if cells[x].HeapBlock? then x else 0)
    ensures Ranked(cells, rank) ==> Ranked(cells[x := c], rank)
  {
  }

  /** What a cell owns leads somewhere. */
  lemma OwnedTarget(cells: seq<Cell>, holds: multiset<Capture>, retained: multiset<nat>, y: nat, c: Capture)
    requires Sound(cells, holds, retained) && y < |cells| && c in OwnedBy(y, cells[y])
    ensures c in Total(cells) && TargetOk(cells, c)
  {
    TotalUpdate(cells, y, cells[y]);
    assert c in holds + Total(cells);
  }

  /** The forwarding pointer leads to the variable's one true cell. */
  lemma ForwardOk(cells: seq<Cell>, holds: multiset<Capture>, retained: multiset<nat>, x: nat)
    requires Sound(cells, holds, retained) && IsVar(cells, x)
    ensures cells[x].fwd < |cells| && (cells[x].fwd == x || (cells[x].StackVar? && cells[cells[x].fwd].HeapVar?))
    ensures IsVar(cells, cells[x].fwd) && cells[cells[x].fwd].fwd == cells[x].fwd
  {
    assert ShapeOk(cells[x], x);
    if cells[x].fwd != x {
      OwnedTarget(cells, holds, retained, x, Var(cells[x].fwd));
      assert ShapeOk(cells[cells[x].fwd], cells[x].fwd);
    }
  }

  lemma AppendFrame(cells: seq<Cell>, holds: multiset<Capture>, retained: multiset<nat>, rank: seq<nat>, c: Cell)
    requires Sound(cells, holds, retained) && Ranked(cells, rank) && (c.HeapBlock? ==> c.lo == |c.caps|)
    ensures Grown(cells, cells + [c]) && ValuesKept(cells, cells + [c]) && Ranked(cells + [c], rank + [0])
  {
    AppendValues(cells, holds, retained, c);
    AppendRanked(cells, holds, retained, rank, c);
  }

  lemma AppendValues(cells: seq<Cell>, holds: multiset<Capture>, retained: multiset<nat>, c: Cell)
    requires Sound(cells, holds, retained)
    ensures ValuesKept(cells, cells + [c])
  {
    forall x | 0 <= x < |cells| && IsVar(cells, x) ensures Value(cells + [c], x) == Value(cells, x) {
      ForwardOk(cells, holds, retained, x);
    }
  }

  lemma AppendRanked(cells: seq<Cell>, holds: multiset<Capture>, retained: multiset<nat>, rank: seq<nat>, c: Cell)
    requires Sound(cells, holds, retained) && Ranked(cells, rank) && (c.HeapBlock? ==> c.lo == |c.caps|)
    ensures Ranked(cells + [c], rank + [0])
  {
    forall y, k | 0 <= y < |cells| && cells[y].HeapBlock? && cells[y].lo <= k < |cells[y].caps|
      ensures Below(cells + [c], rank + [0], cells[y].caps[k], rank[y])
    {
      assert cells[y].caps[k] == cells[y].caps[cells[y].lo..][k - cells[y].lo];
      OwnedTarget(cells, holds, retained, y, cells[y].caps[k]);
      assert Below(cells, rank, cells[y].caps[k], rank[y]);
    }
  }

  lemma FillFrame(c0: seq<Cell>, c1: seq<Cell>, c2: seq<Cell>, b: nat, r: nat, c: Cell)
    requires b < r == |c0| && c1 == c0 + [c] && IsLive(c)
    requires Grown(c0, c1) && ValuesKept(c0, c1)
    requires CopyFrame(c1, c2, b)
    ensures CopyFrame(c0, c2, b)
    ensures r < |c2| && c2[r] == c && (c0[b].StackBlock? ==> c2[b] == c0[b])
  {
  }

  lemma StoreSound(cells: seq<Cell>, rest: multiset<Capture>, retained: multiset<nat>, r: nat, caps: seq<Capture>,
                   own: seq<Capture>)
    requires Sound(cells, rest + multiset{Blk(r)} + multiset(own), retained)
    requires r < |cells| && cells[r] == HeapBlock(1, false, caps, |caps|)
    ensures Sound(cells[r := HeapBlock(1, false, own, 0)], rest + multiset{Blk(r)}, retained)
  {
    assert caps[|caps|..] == [] && own[0..] == own;
    Replace(cells, rest + multiset{Blk(r)} + multiset(own), retained, r, HeapBlock(1, false, own, 0),
            rest + multiset{Blk(r)});
  }

  /** Nobody owns a block that is still being filled. */
  lemma StoreUnowned(cells: seq<Cell>, rest: multiset<Capture>, retained: multiset<nat>, r: nat, caps: seq<Capture>,
                     own: seq<Capture>)
    requires Sound(cells, rest + multiset{Blk(r)} + multiset(own), retained)
    requires r < |cells| && cells[r] == HeapBlock(1, false, caps, |caps|)
    ensures Blk(r) !in Total(cells) && Blk(r) !in own
  {
  }

  lemma StoreRanked(cells: seq<Cell>, rest: multiset<Capture>, retained: multiset<nat>, rank: seq<nat>,
                    r: nat, caps: seq<Capture>, own: seq<Capture>)
    requires Sound(cells, rest + multiset{Blk(r)} + multiset(own), retained) && Ranked(cells, rank)
    requires r < |cells| && cells[r] == HeapBlock(1, false, caps, |caps|)
    ensures Ranked(cells[r := HeapBlock(1, false, own, 0)], rank[r := Top(rank) + 1])
  {
    StoreUnowned(cells, rest, retained, r, caps, own);
    OwnedTargets(cells, rest + multiset{Blk(r)} + multiset(own), retained);
    RankRaised(cells, rank, r, own);
  }

  lemma StoreOk(cells: seq<Cell>, rest: multiset<Capture>, retained: multiset<nat>, rank: seq<nat>,
                r: nat, caps: seq<Capture>, own: seq<Capture>)
    requires AllOk(cells, rest + multiset{Blk(r)} + multiset(own), retained, rank)
    requires r < |cells| && cells[r] == HeapBlock(1, false, caps, |caps|)
    ensures AllOk(cells[r := HeapBlock(1, false, own, 0)], rest + multiset{Blk(r)}, retained, rank[r := Top(rank) + 1])
    ensures SameFreed(cells, cells[r := HeapBlock(1, false, own, 0)])
    ensures Counted(cells, rest + multiset{Blk(r)} + multiset(own), cells[r := HeapBlock(1, false, own, 0)],
                    rest + multiset{Blk(r)}, multiset{})
  {
    assert caps[|caps|..] == [] && own[0..] == own;
    CountedAt(cells, rest + multiset{Blk(r)} + multiset(own), r, HeapBlock(1, false, own, 0), rest + multiset{Blk(r)},
              multiset{});
    StoreSound(cells, rest, retained, r, caps, own);
    StoreRanked(cells, rest, retained, rank, r, caps, own);
  }

  /** A block that nobody owns may own anything. */
  lemma RankRaised(cells: seq<Cell>, rank: seq<nat>, r: nat, own: seq<Capture>)
    requires Ranked(cells, rank) && r < |cells| && cells[r].HeapBlock? && Blk(r) !in own
    requires forall y, k :: 0 <= y < |cells| && cells[y].HeapBlock? && cells[y].lo <= k < |cells[y].caps| ==>
               cells[y].caps[k] in Total(cells)
    requires Blk(r) !in Total(cells)
    ensures Ranked(cells[r := HeapBlock(1, false, own, 0)], rank[r := Top(rank) + 1])
  {
  }

  lemma OwnedTargets(cells: seq<Cell>, holds: multiset<Capture>, retained: multiset<nat>)
    requires Sound(cells, holds, retained)
    ensures forall y, k :: 0 <= y < |cells| && cells[y].HeapBlock? && cells[y].lo <= k < |cells[y].caps| ==>
              cells[y].caps[k] in Total(cells)
  {
    forall y, k | 0 <= y < |cells| && cells[y].HeapBlock? && cells[y].lo <= k < |cells[y].caps|
      ensures cells[y].caps[k] in Total(cells)
    {
      assert cells[y].caps[k] == cells[y].caps[cells[y].lo..][k - cells[y].lo];
      OwnedTarget(cells, holds, retained, y, cells[y].caps[k]);
    }
  }

  lemma StoreSame(cells: seq<Cell>, b: nat, r: nat, caps: seq<Capture>, own: seq<Capture>)
    requires b < r < |cells| && cells[b] == StackBlock(caps) && ShapeOk(cells[b], b)
    requires cells[r] == HeapBlock(1, false, caps, |caps|) && |own| == |caps|
    requires AllSame(cells, caps, own)
    ensures Same(cells[r := HeapBlock(1, false, own, 0)], Blk(b), Blk(r))
  {
    var c := HeapBlock(1, false, own, 0);
    forall k | 0 <= k < |caps| ensures (caps[k].Blk? ==> caps[k].x < b) && Same(cells[r := c], caps[k], own[k]) {
      SameStored(cells, r, c, caps[k], own[k]);
    }
  }

  lemma StoredFrame(c0: seq<Cell>, c2: seq<Cell>, b: nat, r: nat, c: Cell)
    requires |c0| <= r < |c2| && c2[r].HeapBlock? && IsLive(c)
    requires CopyFrame(c0, c2, b)
    ensures CopyFrame(c0, c2[r := c], b)
  {
  }

  lemma CopyStart(cells: seq<Cell>, holds: multiset<Capture>, b: nat, caps: seq<Capture>)
    ensures CopyFrame(cells, cells, b) && AllSame(cells, caps, [])
    ensures CostAll(cells, b, caps[..0]) == 0 && holds == holds + multiset([])
  {
  }

  lemma NextCapture(c0: seq<Cell>, c1: seq<Cell>, b: nat, caps: seq<Capture>, i: nat)
    requires Grown(c0, c1) && Copyable(c0, b) && c0[b] == StackBlock(caps) && i < |caps|
    ensures Assignable(c1, caps[i]) && (caps[i].Blk? ==> caps[i].x < b)
  {
    AssignableKept(c0, c1, caps[i]);
  }

  lemma NextCost(c0: seq<Cell>, c1: seq<Cell>, b: nat, caps: seq<Capture>, i: nat)
    requires Grown(c0, c1) && Copyable(c0, b) && c0[b] == StackBlock(caps) && i < |caps|
    ensures CostAll(c0, b, caps[..i + 1]) == CostAll(c0, b, caps[..i]) + Cost(c1, caps[i])
  {
    assert caps[..i + 1][..i] == caps[..i];
    CostKept(c0, c1, caps[i]);
  }

  lemma NextSame(c0: seq<Cell>, c1: seq<Cell>, c2: seq<Cell>, b: nat, caps: seq<Capture>, own: seq<Capture>, d: Capture)
    requires CopyFrame(c0, c1, b) && CopyFrame(c1, c2, b)
    requires AllSame(c1, caps, own) && |own| < |caps| && Same(c2, caps[|own|], d)
    ensures CopyFrame(c0, c2, b) && AllSame(c2, caps, own + [d])
  {
    GrownTrans(c0, c1, c2);
    ValuesTrans(c0, c1, c2);
    forall k | 0 <= k < |own| ensures Same(c2, caps[k], own[k]) { SameKept(c1, c2, caps[k], own[k]); }
  }

  lemma FrameWider(c0: seq<Cell>, c1: seq<Cell>, b: nat, bound: nat)
    requires CopyFrame(c0, c1, b) && b <= bound
    ensures CopyFrame(c0, c1, bound)
  {
  }

  lemma HeldMore(holds: multiset<Capture>, own: seq<Capture>, d: Capture)
    ensures holds + multiset(own) + multiset{d} == holds + multiset(own + [d])
  {
  }

  lemma HeldLess(rest: multiset<Capture>, own: seq<Capture>)
    ensures rest + multiset(own) - multiset(own) == rest
  {
  }

  lemma MoveSound(cells: seq<Cell>, holds: multiset<Capture>, retained: multiset<nat>, x: nat)
    requires Sound(cells, holds, retained) && x < |cells| && cells[x].StackVar? && cells[x].fwd == x
    ensures Sound(cells[x := StackVar(cells[x].val, |cells|)] + [HeapVar(cells[x].val, 2, |cells|)],
                  holds + multiset{Var(|cells|)}, retained)
  {
    var y := |cells|;
    var c, v := HeapVar(cells[x].val, 2, y), StackVar(cells[x].val, y);
    AddHeapVar(cells, holds, retained, cells[x].val);
    assert (cells + [c])[x := v] == cells[x := v] + [c];
    Replace(cells + [c], holds + multiset{Var(y), Var(y)}, retained, x, v, holds + multiset{Var(y)});
  }

  /** malloc of a variable, with both of its references in hand. */
  lemma AddHeapVar(cells: seq<Cell>, holds: multiset<Capture>, retained: multiset<nat>, val: Field)
    requires Sound(cells, holds, retained)
    ensures var y := |cells|;
            Sound(cells + [HeapVar(val, 2, y)], holds + multiset{Var(y), Var(y)}, retained)
  {
    var y, refs := |cells|, holds + Total(cells);
    var c := HeapVar(val, 2, y);
    TotalAppend(cells, c);
    MatchesAppend(cells, refs, retained, c, Var(y), refs[Var(y) := 2]);
    assert holds + multiset{Var(y), Var(y)} + Total(cells + [c]) == refs[Var(y) := 2];
  }

  lemma MoveFrame(cells: seq<Cell>, holds: multiset<Capture>, retained: multiset<nat>, rank: seq<nat>, x: nat)
    requires Sound(cells, holds, retained) && Ranked(cells, rank)
    requires x < |cells| && cells[x].StackVar? && cells[x].fwd == x
    ensures var cells' := cells[x := StackVar(cells[x].val, |cells|)] + [HeapVar(cells[x].val, 2, |cells|)];
            && CopyFrame(cells, cells', 0)
            && Ranked(cells', rank + [0]) && Same(cells', Var(x), Var(|cells|))
  {
    var c := HeapVar(cells[x].val, 2, |cells|);
    var c1 := cells + [c];
    AppendFrame(cells, holds, retained, rank, c);
    var c2 := c1[x := StackVar(cells[x].val, |cells|)];
    assert c2 == cells[x := StackVar(cells[x].val, |cells|)] + [c];
    assert Grown(c1, c2);
    RankedFewer(c1, c2, rank + [0]);
    GrownTrans(cells, c1, c2);
    forall v | 0 <= v < |cells| && IsVar(cells, v) ensures IsVar(c2, v) && Value(c2, v) == Value(cells, v) {
      ForwardOk(cells, holds, retained, v);
    }
  }

  lemma MoveCounted(cells: seq<Cell>, holds: multiset<Capture>, x: nat)
    requires x < |cells| && cells[x].StackVar? && cells[x].fwd == x
    ensures var y := |cells|;
            Counted(cells, holds, cells[x := StackVar(cells[x].val, y)] + [HeapVar(cells[x].val, 2, y)],
                    holds + multiset{Var(y)}, multiset{Var(y), Var(y)})
  {
    var y := |cells|;
    var v := StackVar(cells[x].val, y);
    var c := HeapVar(cells[x].val, 2, y);
    CountedMore(cells, holds, c, holds + multiset{Var(y), Var(y)}, multiset{Var(y), Var(y)});
    assert (cells + [c])[x := v] == cells[x := v] + [c];
    CountedAt(cells + [c], holds + multiset{Var(y), Var(y)}, x, v, holds + multiset{Var(y)}, multiset{});
    MoveTrans(cells, holds, x, v, c, holds + multiset{Var(y), Var(y)}, holds + multiset{Var(y)},
              multiset{Var(y), Var(y)});
  }

  /** A cell is added and then another, which has no count, changes. */
  lemma MoveTrans(cells: seq<Cell>, h0: multiset<Capture>, x: nat, v: Cell, c: Cell, h1: multiset<Capture>,
                  h2: multiset<Capture>, more: multiset<Capture>)
    requires x < |cells| && v.StackVar?
    requires Counted(cells, h0, cells + [c], h1, more)
    requires Counted(cells + [c], h1, (cells + [c])[x := v], h2, multiset{})
    ensures Counted(cells, h0, cells[x := v] + [c], h2, more)
  {
    assert (cells + [c])[x := v] == cells[x := v] + [c];
    assert StartsLoose((cells + [c])[|cells|]);
  }

  lemma MoveOk(cells: seq<Cell>, holds: multiset<Capture>, retained: multiset<nat>, rank: seq<nat>, x: nat)
    requires AllOk(cells, holds, retained, rank) && x < |cells| && cells[x].StackVar? && cells[x].fwd == x
    ensures var cells' := cells[x := StackVar(cells[x].val, |cells|)] + [HeapVar(cells[x].val, 2, |cells|)];
            && AllOk(cells', holds + multiset{Var(|cells|)}, retained, rank + [0])
            && SameFreed(cells, cells') && CopyFrame(cells, cells', 0) && Same(cells', Var(x), Var(|cells|))
            && Counted(cells, holds, cells', holds + multiset{Var(|cells|)}, multiset{Var(|cells|), Var(|cells|)})
  {
    MoveCounted(cells, holds, x);
    MoveSound(cells, holds, retained, x);
    MoveFrame(cells, holds, retained, rank, x);
  }

  // -------------------------------------------------------------- releasing

  lemma HoldTarget(cells: seq<Cell>, holds: multiset<Capture>, retained: multiset<nat>, c: Capture)
    requires Sound(cells, holds, retained)
    ensures c in holds ==> TargetOk(cells, c)
  {
  }

  /** The count of a cell, seen from a reference outside. */
  lemma HeldCount(cells: seq<Cell>, holds: multiset<Capture>, retained: multiset<nat>, x: nat, self: Capture, rc: nat)
    requires Sound(cells, holds, retained) && self in holds && x < |cells|
    requires (self == Blk(x) && cells[x].HeapBlock? && rc == cells[x].rc)
             || (self == Var(x) && cells[x].HeapVar? && rc == cells[x].rc)
    ensures rc == LATCH || rc == holds[self] + Total(cells)[self]
    ensures ShapeOk(cells[x], x) && TargetOk(cells, self)
  {
  }

  lemma LowerSound(cells: seq<Cell>, holds: multiset<Capture>, retained: multiset<nat>, rank: seq<nat>, b: nat, rc: nat)
    requires Sound(cells, holds, retained) && Ranked(cells, rank) && b < |cells| && Blk(b) in holds && IsLive(cells[b])
    requires Decr(cells[b].rc, false) == (rc, false)
    ensures var cells' := cells[b := HeapBlock(rc, false, cells[b].caps, cells[b].lo)];
            && Sound(cells', holds - multiset{Blk(b)}, retained) && Ranked(cells', rank) && Stable(cells, cells')
            && Counted(cells, holds, cells', holds - multiset{Blk(b)}, multiset{})
            && (cells[b].rc > 1 && OneFewer(cells, cells', b))
  {
    assert ShapeOk(cells[b], b);
    var c := HeapBlock(rc, false, cells[b].caps, cells[b].lo);
    LowerCount(cells, holds, retained, b, c);
    CountedAt(cells, holds, b, c, holds - multiset{Blk(b)}, multiset{});
    RankedFewer(cells, cells[b := c], rank);
  }

  lemma LowerCount(cells: seq<Cell>, holds: multiset<Capture>, retained: multiset<nat>, b: nat, c: Cell)
    requires Sound(cells, holds, retained) && b < |cells| && Blk(b) in holds && IsLive(cells[b])
    requires Decr(cells[b].rc, false).1 == false
    requires c == HeapBlock(Decr(cells[b].rc, false).0, false, cells[b].caps, cells[b].lo)
    ensures Sound(cells[b := c], holds - multiset{Blk(b)}, retained)
  {
    HeldCount(cells, holds, retained, b, Blk(b), cells[b].rc);
    OneLess(holds, Total(cells), Blk(b));
    Recount(cells, holds, retained, b, c, Blk(b), holds - multiset{Blk(b)});
  }

  lemma OneLess(holds: multiset<Capture>, total: multiset<Capture>, c: Capture)
    requires c in holds
    ensures (holds - multiset{c})[c] == holds[c] - 1 && (holds - multiset{c} + total)[c] == holds[c] + total[c] - 1
    ensures holds - multiset{c} == holds[c := (holds - multiset{c})[c]]
  {
  }

  lemma MarkSound(cells: seq<Cell>, holds: multiset<Capture>, retained: multiset<nat>, rank: seq<nat>, b: nat)
    requires Sound(cells, holds, retained) && Ranked(cells, rank) && b < |cells| && Blk(b) in holds
    requires IsLive(cells[b]) && cells[b].rc == 1
    ensures var cells' := cells[b := HeapBlock(0, true, cells[b].caps, cells[b].lo)];
            && Sound(cells', holds - multiset{Blk(b)}, retained) && Ranked(cells', rank)
            && Counted(cells, holds, cells', holds - multiset{Blk(b)}, multiset{})
  {
    var c := HeapBlock(0, true, cells[b].caps, cells[b].lo);
    HeldCount(cells, holds, retained, b, Blk(b), 1);
    CountedAt(cells, holds, b, c, holds - multiset{Blk(b)}, multiset{});
    Recount(cells, holds, retained, b, c, Blk(b), holds - multiset{Blk(b)});
    RankedFewer(cells, cells[b := c], rank);
  }

  lemma LowerVarSound(cells: seq<Cell>, holds: multiset<Capture>, retained: multiset<nat>, rank: seq<nat>, f: nat,
                      c: Cell)
    requires Sound(cells, holds, retained) && Ranked(cells, rank) && f < |cells| && Var(f) in holds && cells[f].HeapVar?
    requires var (rc, last) := Decr(cells[f].rc, false);
             c == if last then Freed else HeapVar(cells[f].val, rc, f)
    ensures Sound(cells[f := c], holds - multiset{Var(f)}, retained) && Ranked(cells[f := c], rank)
            && Stable(cells, cells[f := c])
  {
    HeldCount(cells, holds, retained, f, Var(f), cells[f].rc);
    Recount(cells, holds, retained, f, c, Var(f), holds - multiset{Var(f)});
    RankedFewer(cells, cells[f := c], rank);
  }

  lemma LowerVarCounted(cells: seq<Cell>, holds: multiset<Capture>, f: nat, c: Cell)
    requires f < |cells| && cells[f].HeapVar? && ShapeOk(cells[f], f)
    requires var (rc, last) := Decr(cells[f].rc, false);
             c == if last then Freed else HeapVar(cells[f].val, rc, f)
    ensures Counted(cells, holds, cells[f := c], holds - multiset{Var(f)}, multiset{})
    ensures if cells[f].rc == 1 then c.Freed? else OneFewer(cells, cells[f := c], f)
  {
    CountedAt(cells, holds, f, c, holds - multiset{Var(f)}, multiset{});
  }

  lemma TakeSound(cells: seq<Cell>, holds: multiset<Capture>, retained: multiset<nat>, rank: seq<nat>, b: nat,
                  c: Cell, cap: Capture)
    requires Sound(cells, holds, retained) && Ranked(cells, rank)
    requires b < |cells| && cells[b].HeapBlock? && cells[b].dealloc && cells[b].lo < |cells[b].caps|
    requires c == HeapBlock(cells[b].rc, true, cells[b].caps, cells[b].lo + 1) && cap == cells[b].caps[cells[b].lo]
    ensures Sound(cells[b := c], holds + multiset{cap}, retained) && Ranked(cells[b := c], rank)
    ensures Counted(cells, holds, cells[b := c], holds + multiset{cap}, multiset{})
  {
    TakeOwned(cells[b].caps, cells[b].lo, holds);
    CountedAt(cells, holds, b, c, holds + multiset{cap}, multiset{});
    Replace(cells, holds, retained, b, c, holds + multiset{cap});
    RankedFewer(cells, cells[b := c], rank);
  }

  lemma TakeOwned(caps: seq<Capture>, lo: nat, holds: multiset<Capture>)
    requires lo < |caps|
    ensures holds + multiset{caps[lo]} + multiset(caps[lo + 1..]) == holds + multiset(caps[lo..])
  {
    assert caps[lo..] == [caps[lo]] + caps[lo + 1..];
  }

  lemma FreeSound(c0: seq<Cell>, c1: seq<Cell>, c2: seq<Cell>, holds: multiset<Capture>, retained: multiset<nat>,
                  rank: seq<nat>, b: nat)
    requires b < |c0| == |c1| && IsLive(c0[b]) && c1 == c0[b := c1[b]] && StableBut(c1, c2, b)
    requires Sound(c2, holds, retained) && Ranked(c2, rank)
    requires c2[b].HeapBlock? && c2[b].dealloc && c2[b].lo == |c2[b].caps|
    ensures Sound(c2[b := Freed], holds, retained) && Ranked(c2[b := Freed], rank) && Stable(c0, c2[b := Freed])
    ensures Counted(c2, holds, c2[b := Freed], holds, multiset{})
  {
    CountedAt(c2, holds, b, Freed, holds, multiset{});
    Free(c2, holds, retained, b);
    RankedFewer(c2, c2[b := Freed], rank);
  }

  /** Stable everywhere but at the block being disposed of. */
  ghost predicate StableBut(c0: seq<Cell>, c1: seq<Cell>, b: nat) {
    |c1| == |c0| && forall i :: 0 <= i < |c0| && i != b ==> StableCell(c0[i], c1[i])
  }

  lemma StableButTrans(c0: seq<Cell>, c1: seq<Cell>, c2: seq<Cell>, b: nat)
    requires StableBut(c0, c1, b) && StableBut(c1, c2, b)
    ensures StableBut(c0, c2, b)
  {
  }

  lemma LiveBut(c0: seq<Cell>, c1: seq<Cell>, b: nat)
    requires StableBut(c0, c1, b) && b < |c0| && !IsLive(c0[b]) && !IsLive(c1[b]) && c1[b].HeapBlock?
    ensures Live(c1) <= Live(c0)
  {
    LiveUpdate(c0, b, c1[b]);
    LiveStable(c0[b := c1[b]], c1);
  }
}
