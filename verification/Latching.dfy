/** The latching counters of the block runtime under concurrent use.

    The flags word holds a count in bits 1 to 15 and the DEALLOCATING bit in
    bit 0; bits 16 and up belong to others.  Each operation loads the word and
    tries to exchange it, again and again until no other thread interferes. */
module Latching {
  import Blocks

  const MASK: nat := 0xfffe

  /** flags & BLOCK_REFCOUNT_MASK, flags & BLOCK_DEALLOCATING, and the rest. */
  function Masked(w: nat): nat { w % 0x1_0000 - w % 2 }
  predicate Dealloc(w: nat) { w % 2 == 1 }
  function High(w: nat): nat { w / 0x1_0000 }
  function Count(w: nat): nat { Masked(w) / 2 }
  predicate Latched(w: nat) { Masked(w) == MASK }

  datatype Op = OpIncr | OpTry | OpDecr

  /** One pass of an operation's loop over the loaded word: an answer without
      any exchange, or the word to exchange it for. */
  datatype Plan = Answer(ok: bool) | Exchange(word: nat, result: bool)

  function PlanOf(op: Op, w: nat): Plan {
    match op
    case OpIncr => if Masked(w) == MASK then Answer(true) else Exchange(w + 2, true)
    case OpTry =>
      if Dealloc(w) then Answer(false) else if Masked(w) == MASK then Answer(true) else Exchange(w + 2, true)
    case OpDecr =>
      if Masked(w) == MASK then Answer(false)
      else if Masked(w) == 0 then Answer(false)
      else if Masked(w) + w % 2 == 2 then Exchange(w - 1, true)
      else Exchange(w - 2, false)
  }

  lemma Parts(w: nat)
    ensures w == 0x1_0000 * High(w) + 2 * Count(w) + w % 2 && Count(w) <= Blocks.LATCH && Masked(w) == 2 * Count(w)
  {
    LowBits(w, High(w), w % 0x1_0000, w % 0x1_0000 / 2);
  }

  lemma LowBits(w: nat, h: nat, m: nat, c: nat)
    requires w == 0x1_0000 * h + m && m < 0x1_0000 && c == m / 2
    ensures w % 2 == m % 2 && m - m % 2 == 2 * c && c <= Blocks.LATCH && (m - m % 2) / 2 == c
  {
    Pair(w, 0x8000 * h + c, m % 2);
    Pair(2 * c, c, 0);
  }

  lemma Pair(w: nat, q: nat, d: nat)
    requires w == 2 * q + d && d < 2
    ensures w / 2 == q && w % 2 == d
  {
  }

  lemma Whole(h: nat, c: nat, d: nat)
    requires c <= Blocks.LATCH && d < 2
    ensures var w := 0x1_0000 * h + 2 * c + d; High(w) == h && Count(w) == c && w % 2 == d
  {
  }

  /** The word arithmetic is the counting of the block model, and an exchange
      never carries into the bits above the count. */
  lemma PlanMeaning(op: Op, w: nat)
    ensures PlanOf(op, w).Answer? <==>
              Latched(w) || (op.OpTry? && Dealloc(w)) || (op.OpDecr? && Count(w) == 0)
    ensures PlanOf(op, w).Answer? ==> (PlanOf(op, w).ok <==> op.OpIncr? || (op.OpTry? && !Dealloc(w)))
    ensures PlanOf(op, w).Exchange? && !op.OpDecr? ==> PlanOf(op, w).result
    ensures PlanOf(op, w).Exchange? ==> var w' := PlanOf(op, w).word;
              && High(w') == High(w)
              && (!op.OpDecr? ==> Count(w') == Blocks.Incr(Count(w)) == Count(w) + 1 && Dealloc(w') == Dealloc(w))
              && (op.OpDecr? ==>
                  (Count(w'), PlanOf(op, w).result) == Blocks.Decr(Count(w), Dealloc(w)) && Count(w') == Count(w) - 1)
              && (op.OpDecr? ==> (Dealloc(w') <==> Dealloc(w) || PlanOf(op, w).result))
              && (op.OpDecr? && PlanOf(op, w).result ==> !Dealloc(w))
  {
    Parts(w);
    var d := w % 2;
    if !op.OpDecr? {
      if !Latched(w) { Whole(High(w), Count(w) + 1, d); }
    } else if !Latched(w) && Count(w) > 0 {
      if Count(w) == 1 && d == 0 { Whole(High(w), 0, 1); } else { Whole(High(w), Count(w) - 1, d); }
    }
  }

  // ---------------------------------------------------------------- threads

  datatype Pc = Idle | Loaded(op: Op, seen: nat)

  /** What a finished operation has answered. */
  datatype Reply = Reply(op: Op, ok: bool)

  /** The word, the threads, and what has happened so far: exchanges that raised
      and lowered the count, raises by tryRetain of a deallocating block, and all
      answers. */
  datatype State = State(word: nat, threads: seq<Pc>, ups: nat, downs: nat, revivals: nat, replies: seq<Reply>)

  datatype Event = Begin(op: Op) | Turn

  ghost predicate Init(s: State) {
    && s.ups == s.downs == s.revivals == 0 && s.replies == [] && !Dealloc(s.word)
    && forall t :: 0 <= t < |s.threads| ==> s.threads[t].Idle?
  }

  /** Thread t loads the word, or acts on the word it loaded. */
  function Next(s: State, t: nat, e: Event): State
    requires t < |s.threads|
  {
    match (s.threads[t], e)
    case (Idle, Begin(op)) => s.(threads := s.threads[t := Loaded(op, s.word)])
    case (Loaded(op, seen), Turn) =>
      (match PlanOf(op, seen)
       case Answer(ok) => s.(threads := s.threads[t := Idle], replies := s.replies + [Reply(op, ok)])
       case Exchange(word, result) =>
         if s.word != seen then s.(threads := s.threads[t := Loaded(op, s.word)])
         else State(word, s.threads[t := Idle],
                    if op.OpDecr? then s.ups else s.ups + 1,
                    if op.OpDecr? then s.downs + 1 else s.downs,
                    if op.OpTry? && Dealloc(s.word) then s.revivals + 1 else s.revivals,
                    s.replies + [Reply(op, result)]))
    case _ => s
  }

  function RunOf(s: State, steps: seq<(nat, Event)>): State
    requires forall k :: 0 <= k < |steps| ==> steps[k].0 < |s.threads|
    decreases |steps|
  {
    if steps == [] then s
    else
      var s' := Next(s, steps[0].0, steps[0].1);
      assert |s'.threads| == |s.threads|;
      RunOf(s', steps[1..])
  }

  /** How often an increment or try, and how often a decrement, said true. */
  function Raises(rs: seq<Reply>): nat {
    if rs == [] then 0
    else Raises(rs[..|rs| - 1]) + (if rs[|rs| - 1].ok && !rs[|rs| - 1].op.OpDecr? then 1 else 0)
  }

  function Deaths(rs: seq<Reply>): nat {
    if rs == [] then 0
    else Deaths(rs[..|rs| - 1]) + (if rs[|rs| - 1].ok && rs[|rs| - 1].op.OpDecr? then 1 else 0)
  }

  lemma RepliesMore(rs: seq<Reply>, r: Reply)
    ensures Raises(rs + [r]) == Raises(rs) + (if r.ok && !r.op.OpDecr? then 1 else 0)
    ensures Deaths(rs + [r]) == Deaths(rs) + (if r.ok && r.op.OpDecr? then 1 else 0)
  {
    assert (rs + [r])[..|rs|] == rs;
  }

  /** What every state reached from word w0 satisfies. */
  ghost predicate Good(w0: nat, s: State) {
    && High(s.word) == High(w0)
    && Deaths(s.replies) == (if Dealloc(s.word) then 1 else 0) && s.revivals == 0
    && (!Latched(s.word) ==> Count(s.word) + s.downs == Count(w0) + s.ups && s.ups == Raises(s.replies))
    && (forall t :: 0 <= t < |s.threads| ==> SeenOk(s.threads[t], s.word))
    && (forall i :: 0 <= i < |s.replies| ==> ReplyOk(s.replies[i], s.word))
  }

  /** A word that was loaded: what was stuck or deallocating then still is. */
  predicate SeenOk(pc: Pc, w: nat) {
    pc.Loaded? ==> (Dealloc(pc.seen) ==> Dealloc(w)) && (Latched(pc.seen) ==> Latched(w))
  }

  /** An increment never fails, and a try only on a deallocating block. */
  predicate ReplyOk(r: Reply, w: nat) { !r.ok ==> r.op.OpDecr? || (r.op.OpTry? && Dealloc(w)) }

  /** The part of Good that is about one thread's step. */
  ghost predicate Advances(s: State, s': State, t: nat)
    requires t < |s.threads|
  {
    && High(s'.word) == High(s.word)
    && (Dealloc(s.word) ==> Dealloc(s'.word)) && (Latched(s.word) ==> Latched(s'.word))
    && |s'.threads| == |s.threads| && s'.threads == s.threads[t := s'.threads[t]] && SeenOk(s'.threads[t], s'.word)
    && s'.revivals == s.revivals
    && (s'.replies == s.replies ==>
          s'.word == s.word && s'.ups == s.ups && s'.downs == s.downs)
    && (s'.replies != s.replies ==> |s'.replies| == |s.replies| + 1 && Replied(s, s', s'.replies[|s.replies|]))
  }

  ghost predicate Replied(s: State, s': State, r: Reply) {
    && s'.replies == s.replies + [r] && ReplyOk(r, s'.word)
    && (r.ok && r.op.OpDecr? <==> Dealloc(s'.word) && !Dealloc(s.word))
    && (!Latched(s'.word) ==>
          && Count(s'.word) + s'.downs - s'.ups == Count(s.word) + s.downs - s.ups
          && s'.ups == s.ups + (if r.ok && !r.op.OpDecr? then 1 else 0))
  }

  lemma TurnReplies(s: State, t: nat, op: Op, seen: nat)
    requires t < |s.threads| && s.threads[t] == Loaded(op, seen) && SeenOk(s.threads[t], s.word)
    ensures Advances(s, Next(s, t, Turn), t)
  {
    PlanMeaning(op, seen);
    var s' := Next(s, t, Turn);
    if PlanOf(op, seen).Answer? || s.word == seen {
      assert s'.replies == s.replies + [s'.replies[|s.replies|]];
    }
  }

  lemma NextGood(w0: nat, s: State, t: nat, e: Event)
    requires t < |s.threads| && Good(w0, s)
    ensures Good(w0, Next(s, t, e))
    ensures Latched(s.word) ==> Latched(Next(s, t, e).word)
    ensures Dealloc(s.word) ==> Dealloc(Next(s, t, e).word)
  {
    assert SeenOk(s.threads[t], s.word);
    if s.threads[t].Loaded? && e.Turn? {
      TurnReplies(s, t, s.threads[t].op, s.threads[t].seen);
      GoodKept(w0, s, Next(s, t, e), t);
    }
  }

  lemma GoodKept(w0: nat, s: State, s': State, t: nat)
    requires t < |s.threads| && Good(w0, s) && Advances(s, s', t)
    ensures Good(w0, s')
  {
    if s'.replies != s.replies {
      RepliesMore(s.replies, s'.replies[|s.replies|]);
    }
  }

  /** In every interleaving of any number of threads: the upper bits never
      change; until the count sticks, it is what the successful raises and the
      lowering exchanges made it, and then it stays stuck; at most one decrement
      ever says deallocate, the one that set DEALLOCATING for good; increments
      never fail, a try fails only on a deallocating block, and revives none. */
  lemma {:induction false} EveryRunGood(w0: nat, s: State, steps: seq<(nat, Event)>)
    requires forall k :: 0 <= k < |steps| ==> steps[k].0 < |s.threads|
    requires Good(w0, s)
    ensures Good(w0, RunOf(s, steps))
    ensures Latched(s.word) ==> Latched(RunOf(s, steps).word)
    ensures Dealloc(s.word) ==> Dealloc(RunOf(s, steps).word)
    decreases |steps|
  {
    if steps != [] {
      NextGood(w0, s, steps[0].0, steps[0].1);
      EveryRunGood(w0, Next(s, steps[0].0, steps[0].1), steps[1..]);
    }
  }

  lemma {:induction false} RunsFromInit(s0: State, steps: seq<(nat, Event)>)
    requires forall k :: 0 <= k < |steps| ==> steps[k].0 < |s0.threads|
    requires Init(s0)
    ensures Good(s0.word, RunOf(s0, steps))
  {
    EveryRunGood(s0.word, s0, steps);
  }

  /** An operation that nobody disturbs ends in its first turn: a raise adds one
      unless the count is stuck, a decrement takes one off, and sets DEALLOCATING
      and says so when it took the last. */
  lemma Alone(s: State, t: nat, op: Op)
    requires t < |s.threads| && s.threads[t].Idle?
    ensures var s' := Next(Next(s, t, Begin(op)), t, Turn);
            var w, w' := s.word, s'.word;
            && s'.threads[t].Idle? && |s'.replies| == |s.replies| + 1 && s'.replies[|s.replies|].op == op
            && (op.OpDecr? ==>
                  (Count(w'), s'.replies[|s.replies|].ok) == Blocks.Decr(Count(w), Dealloc(w))
                  && (Dealloc(w') <==> Dealloc(w) || s'.replies[|s.replies|].ok))
            && (!op.OpDecr? ==>
                  (s'.replies[|s.replies|].ok <==> op.OpIncr? || !Dealloc(w))
                  && Count(w') == (if s'.replies[|s.replies|].ok then Blocks.Incr(Count(w)) else Count(w))
                  && Dealloc(w') == Dealloc(w))
  {
    PlanMeaning(op, s.word);
    Parts(s.word);
  }
}
