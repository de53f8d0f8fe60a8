/** The perfect-hash builder: inittab, apply, augment, perfect, findhash. */
module PerfectHashBuilder {
  import opened Bits
  import opened PerfectHashSpec
  import opened Counting
  import opened Permutation
  import opened SaltSearch
  import FirstFit
  import PowerOfTwo

  /** n entries, as memset leaves them but for their lists. */
  ghost predicate Zeroed(t: seq<BStuff>, n: nat) {
    |t| == n && forall b :: 0 <= b < |t| ==> t[b].val == 0 && t[b].water == 0
  }

  /** memset(tabb, 0) */
  function ZeroTable(n: nat): seq<BStuff> { seq(n, _ => BStuff(0, NIL, 0, 0)) }

  lemma LinkedNone(keys: seq<Key>, next: seq<int>, n: nat)
    requires |next| == |keys|
    ensures Zeroed(ZeroTable(n), n) && Linked(keys, next, ZeroTable(n), 0)
  {
  }

  class Builder {
    const lookup: (string, Word64) -> Word64
    const lg: nat
    var keys: seq<Key>
    var next: seq<int>
    var tabb: seq<BStuff>
    var tabh: seq<int>
    var tabq: seq<QStuff>
    var scramble: seq<nat>

    constructor (lookup: (string, Word64) -> Word64, lg: nat, names: seq<string>)
      ensures this.lookup == lookup && this.lg == lg && |next| == |keys|
      ensures keys == KeysOf(names) && |keys| == |names| && forall k :: 0 <= k < |keys| ==> keys[k].name == names[k]
    {
      this.lookup := lookup;
      this.lg := lg;
      keys := KeysOf(names);
      next := seq(|names|, _ => NIL);
      tabb, tabh, tabq, scramble := [], [], [], [];
    }

    // ------------------------------------------------------------- inittab

    /** Whether a key before i has the (a,b) of key i: the walk along its
        list. */
    method Collides(i: nat) returns (hit: bool)
      requires i < |keys| && keys[i].b < |tabb| && Linked(keys, next, tabb, i)
      ensures hit <==> exists j :: 0 <= j < i && keys[j].a == keys[i].a && keys[j].b == keys[i].b
    {
      var other := tabb[keys[i].b].list;
      while other != NIL
        invariant -1 <= other < i && (other >= 0 ==> keys[other].b == keys[i].b)
        invariant forall j :: other < j < i && keys[j].b == keys[i].b ==> keys[j].a != keys[i].a
        decreases other
      {
        if keys[i].a == keys[other].a { return true; }
        other := next[other];
      }
      return false;
    }

    /** inittab: sort the keys into lists by b, stopping at a collision unless
        asked to complete. */
    method Inittab(complete: bool) returns (nocollision: bool)
      requires |next| == |keys| && forall k :: 0 <= k < |keys| ==> keys[k].b < |tabb|
      modifies this`next, this`tabb
      ensures |next| == |keys| && Zeroed(tabb, |old(tabb)|)
      ensures nocollision <==> DistinctPairs(keys)
      ensures nocollision || complete ==> Linked(keys, next, tabb, |keys|)
    {
      tabb := ZeroTable(|tabb|);
      LinkedNone(keys, next, |tabb|);
      nocollision := true;
      var i := 0;
      while i < |keys|
        invariant 0 <= i <= |keys| && Zeroed(tabb, |old(tabb)|)
        invariant Linked(keys, next, tabb, i)
        invariant nocollision <==> DistinctUpTo(keys, i)
      {
        var hit := Collides(i);
        DistinctStep(keys, i);
        if hit {
          nocollision := false;
          if !complete { return; }
        }
        PushKey(i);
        i := i + 1;
      }
    }

    /** Put key i on the front of the list of its b. */
    method PushKey(i: nat)
      requires i < |keys| && keys[i].b < |tabb| && Linked(keys, next, tabb, i) && Zeroed(tabb, |tabb|)
      modifies this`next, this`tabb
      ensures Linked(keys, next, tabb, i + 1) && Zeroed(tabb, |old(tabb)|)
    {
      var b := keys[i].b;
      next := next[i := tabb[b].list];
      tabb := tabb[b := tabb[b].(listlen := tabb[b].listlen + 1, list := i)];
      LinkOne(keys, old(next), old(tabb), i, next, tabb);
    }

    // ------------------------------------------------------ apply, augment

    /** The tables are consistent with each other. */
    ghost predicate Ready()
      reads this
    {
      && InRange(keys, tabb, scramble, lg)
      && DistinctPairs(keys)
      && Linked(keys, next, tabb, |keys|)
      && |tabh| == Pow2(lg)
      && |tabq| == |tabb| + 1
    }

    /** First half of apply: take the keys of b off their slots. */
    method EraseHashes(b: nat, ghost done: set<nat>)
      requires Ready() && b < |tabb| && Mapped(keys, tabb, tabh, scramble, lg, done)
      modifies this`tabh
      ensures |tabh| == |old(tabh)|
      ensures forall h :: 0 <= h < |tabh| ==>
                tabh[h] == if old(tabh)[h] != NIL && keys[old(tabh)[h]].b == b then NIL else old(tabh)[h]
    {
      var stabb := scramble[tabb[b].val];
      var mykey := tabb[b].list;
      while mykey != NIL
        invariant -1 <= mykey < |keys| && (mykey >= 0 ==> keys[mykey].b == b)
        invariant |tabh| == |old(tabh)|
        invariant forall h :: 0 <= h < |tabh| ==>
                    tabh[h] == if old(tabh)[h] != NIL && keys[old(tabh)[h]].b == b && old(tabh)[h] > mykey then NIL
                               else old(tabh)[h]
        decreases mykey
      {
        SlotBound(keys, tabb, scramble, lg, mykey, tabb[b].val);
        var hash := Xor(keys[mykey].a, stabb);
        if mykey == tabh[hash] {
          tabh := tabh[hash := NIL];
        }
        assert LastBefore(keys, mykey, b, next[mykey]);
        mykey := next[mykey];
      }
    }

    /** Second half of apply: put the keys of b on their slots, unless one of
        those is taken. */
    method SetHashes(b: nat) returns (ok: bool)
      requires Ready() && b < |tabb|
      requires forall h :: 0 <= h < |tabh| ==> tabh[h] == NIL || (0 <= tabh[h] < |keys| && keys[tabh[h]].b != b)
      modifies this`tabh
      ensures |tabh| == |old(tabh)|
      ensures ok <==> Free(keys, old(tabh), scramble, b, tabb[b].val)
      ensures ok ==> AddedTo(keys, tabb, scramble, old(tabh), tabh, b, -1)
    {
      var stabb := scramble[tabb[b].val];
      var mykey := tabb[b].list;
      while mykey != NIL
        invariant -1 <= mykey < |keys| && (mykey >= 0 ==> keys[mykey].b == b)
        invariant |tabh| == |old(tabh)|
        invariant AddedTo(keys, tabb, scramble, old(tabh), tabh, b, mykey)
        decreases mykey
      {
        SlotBound(keys, tabb, scramble, lg, mykey, tabb[b].val);
        var hash := Xor(keys[mykey].a, stabb);
        if tabh[hash] != NIL {
          TakenBefore(keys, tabb, scramble, old(tabh), tabh, b, mykey, hash);
          return false;
        }
        AddOne(keys, tabb, scramble, old(tabh), tabh, b, mykey, hash, next[mykey]);
        tabh := tabh[hash := mykey];
        mykey := next[mykey];
      }
      return true;
    }

    /** apply: walk from the last queue entry to the root, giving each parent
        its new value.  The tree never has more than one level, and the new
        value was found free, so the walk has one step and the branch that
        would roll back is dead. */
    method Apply(tail: nat, ghost done: set<nat>) returns (ok: bool)
      requires Ready() && Mapped(keys, tabb, tabh, scramble, lg, done)
      requires 2 <= tail <= |tabq| && tabq[tail - 1].parent == 0 && tabq[tail - 1].newval < SCRAMBLE_LEN
      requires 0 <= tabq[0].b < |tabb| && tabq[0].b !in done
      requires Free(keys, tabh, scramble, tabq[0].b, tabq[tail - 1].newval)
      modifies this`tabb, this`tabh
      ensures ok && Ready()
      ensures tabb == WithVal(old(tabb), tabq[0].b, tabq[tail - 1].newval)
      ensures Mapped(keys, tabb, tabh, scramble, lg, done + {tabq[0].b as nat})
    {
      var child := tail - 1;
      while child != 0
        invariant child == tail - 1 ==> tabb == old(tabb) && tabh == old(tabh)
        invariant child == tail - 1 || child == 0
        invariant Ready()
        invariant child == 0 ==> tabb == WithVal(old(tabb), tabq[0].b, tabq[tail - 1].newval)
        invariant child == 0 ==> Mapped(keys, tabb, tabh, scramble, lg, done + {tabq[0].b as nat})
        decreases child
      {
        var parent := tabq[child].parent;
        var ok1 := Remap(tabq[parent].b, tabq[child].newval, done);
        if !ok1 {
          assert false;
        }
        child := parent;
      }
      return true;
    }

    /** One step of apply's walk. */
    method Remap(b: nat, newval: nat, ghost done: set<nat>) returns (ok: bool)
      requires Ready() && Mapped(keys, tabb, tabh, scramble, lg, done)
      requires b < |tabb| && b !in done && newval < SCRAMBLE_LEN
      modifies this`tabb, this`tabh
      ensures ok <==> Free(keys, old(tabh), scramble, b, newval)
      ensures Ready() && tabb == WithVal(old(tabb), b, newval)
      ensures ok ==> Mapped(keys, tabb, tabh, scramble, lg, done + {b})
    {
      EraseHashes(b, done);
      assert tabh == old(tabh);
      tabb := WithVal(tabb, b, newval);
      WithValKeeps(keys, next, old(tabb), scramble, lg, b, newval);
      ok := SetHashes(b);
      if ok {
        MappedMore(keys, old(tabb), scramble, lg, old(tabh), tabh, done, b, newval);
      }
    }

    /** Try tab[b] == i: does every key of b fall on a free slot, or at least
        on slots held by a single other b not yet explored? */
    method TryValue(b: nat, i: nat, highwater: nat, ghost done: set<nat>) returns (fits: bool, child: int)
      requires Ready() && Mapped(keys, tabb, tabh, scramble, lg, done) && b < |tabb| && i < SCRAMBLE_LEN
      ensures fits && child == NIL <==> Free(keys, tabh, scramble, b, i)
      ensures fits && child != NIL ==> 0 <= child < |tabb| && child in done && tabb[child].water != highwater
    {
      child := NIL;
      var mykey := tabb[b].list;
      while mykey != NIL
        invariant -1 <= mykey < |keys| && (mykey >= 0 ==> keys[mykey].b == b)
        invariant child != NIL ==> 0 <= child < |tabb| && child in done && tabb[child].water != highwater
        invariant child == NIL <==> forall k :: mykey < k < |keys| && keys[k].b == b ==>
                    Xor(keys[k].a, scramble[i]) < |tabh| && tabh[Xor(keys[k].a, scramble[i])] == NIL
        decreases mykey
      {
        var hash := Xor(keys[mykey].a, scramble[i]);
        if hash >= Pow2(lg) { return false, child; }
        var childkey := tabh[hash];
        if childkey != NIL {
          var hit := keys[childkey].b;
          if child != NIL {
            if child != hit { return false, child; }
          } else {
            child := hit;
            if tabb[child].water == highwater { return false, child; }
          }
        }
        assert LastBefore(keys, mykey, b, next[mykey]);
        mykey := next[mykey];
      }
      return true, child;
    }

    /** What the search for a value for item keeps: nothing placed has moved,
        and the queue holds the root and the explored children. */
    ghost predicate Searching(item: nat, tail: nat, highwater: nat, done: set<nat>)
      reads this
    {
      && Ready() && item < |tabb| && item !in done
      && Mapped(keys, tabb, tabh, scramble, lg, done)
      && tabq[0].b == item
      && (forall b :: 0 <= b < |tabb| && tabb[b].water == highwater ==> b in done)
      && |Watered(tabb, highwater)| == tail - 1
    }

    /** One value for the root of the tree: enqueue what it hits, and apply it
        if it hits nothing. */
    method TryOne(item: nat, i: nat, tail: nat, highwater: nat, ghost done: set<nat>) returns (ok: bool, newTail: nat)
      requires Searching(item, tail, highwater, done) && i < SCRAMBLE_LEN
      modifies this`tabb, this`tabh, this`tabq
      ensures ok <==> Free(keys, old(tabh), scramble, item, i)
      ensures ok ==> Ready() && Mapped(keys, tabb, tabh, scramble, lg, done + {item})
      ensures ok ==> FirstFit.Placed(old(tabb), tabb, item, i)
      ensures !ok ==> Searching(item, newTail, highwater, done) && tabh == old(tabh) && SameVals(tabb, old(tabb))
      ensures Rewatered(old(tabb), tabb, highwater)
    {
      newTail := tail;
      TailFits(tabb, highwater, item);
      var fits, child := TryValue(item, i, highwater, done);
      if !fits { return false, newTail; }
      if child != NIL {
        Water(child, highwater, done);
      }
      tabq := tabq[newTail := QStuff(child, 0, i, tabb[item].val)];
      newTail := newTail + 1;
      if child != NIL { return false, newTail; }
      ok := Apply(newTail, done);
    }

    /** Mark a child as explored. */
    method Water(child: nat, highwater: nat, ghost done: set<nat>)
      requires Ready() && Mapped(keys, tabb, tabh, scramble, lg, done) && child < |tabb|
               && tabb[child].water != highwater
      modifies this`tabb
      ensures Ready() && Mapped(keys, tabb, tabh, scramble, lg, done)
      ensures tabb == old(tabb)[child := old(tabb)[child].(water := highwater)]
      ensures |Watered(tabb, highwater)| == |Watered(old(tabb), highwater)| + 1
    {
      tabb := tabb[child := tabb[child].(water := highwater)];
      assert Watered(tabb, highwater) == Watered(old(tabb), highwater) + {child};
    }

    /** augment: find a value for the b `item` that puts all its keys on free
        slots.  It succeeds exactly when one of the 256 values does so, and
        otherwise leaves every slot and every other value alone. */
    method Augment(item: nat, highwater: nat, ghost done: set<nat>) returns (ok: bool)
      requires Ready() && Mapped(keys, tabb, tabh, scramble, lg, done)
      requires item < |tabb| && item !in done
      requires forall b :: 0 <= b < |tabb| ==> tabb[b].water != highwater
      modifies this`tabb, this`tabh, this`tabq
      ensures Ready() && Rewatered(old(tabb), tabb, highwater)
      ensures ok <==> exists i :: 0 <= i < SCRAMBLE_LEN && Free(keys, old(tabh), scramble, item, i)
      ensures ok ==> Mapped(keys, tabb, tabh, scramble, lg, done + {item})
      ensures ok ==> FirstFree(keys, old(tabh), scramble, old(tabb), tabb, item)
      ensures !ok ==> tabh == old(tabh) && SameVals(tabb, old(tabb))
    {
      tabq := tabq[0 := tabq[0].(b := item)];
      var tail := 1;
      assert Watered(tabb, highwater) == {};
      var q := 0;
      while q < tail
        invariant Searching(item, tail, highwater, done) && Rewatered(old(tabb), tabb, highwater)
        invariant tabh == old(tabh) && SameVals(tabb, old(tabb))
        invariant q == 0 || (q == 1 && forall j :: 0 <= j < SCRAMBLE_LEN ==> !Free(keys, tabh, scramble, item, j))
        invariant q == 0 ==> tail == 1
        decreases 1 - q
      {
        if q == 1 { break; }
        ok, tail := TryAll(item, tail, highwater, done);
        if ok { return; }
        q := q + 1;
      }
      ok := false;
    }

    /** The loop over the values of one queue entry. */
    method TryAll(item: nat, tail: nat, highwater: nat, ghost done: set<nat>) returns (ok: bool, newTail: nat)
      requires Searching(item, tail, highwater, done)
      modifies this`tabb, this`tabh, this`tabq
      ensures ok <==> exists i :: 0 <= i < SCRAMBLE_LEN && Free(keys, old(tabh), scramble, item, i)
      ensures ok ==> Ready() && Mapped(keys, tabb, tabh, scramble, lg, done + {item})
      ensures ok ==> FirstFree(keys, old(tabh), scramble, old(tabb), tabb, item)
      ensures !ok ==> Searching(item, newTail, highwater, done) && tabh == old(tabh) && SameVals(tabb, old(tabb))
      ensures Rewatered(old(tabb), tabb, highwater)
    {
      newTail := tail;
      var i := 0;
      while i < SCRAMBLE_LEN
        invariant 0 <= i <= SCRAMBLE_LEN
        invariant Searching(item, newTail, highwater, done) && tabh == old(tabh) && SameVals(tabb, old(tabb))
        invariant Rewatered(old(tabb), tabb, highwater)
        invariant NoneFree(keys, tabh, scramble, item, i)
      {
        ok, newTail := TryOne(item, i, newTail, highwater, done);
        if ok { return; }
        NoneFreeMore(keys, tabh, scramble, item, i);
        i := i + 1;
      }
      ok := false;
    }

    // ------------------------------------------------------------- perfect

    /** Between two calls of augment: the b of every watermark is done. */
    ghost predicate Building(done: set<nat>)
      reads this
    {
      && Ready() && Mapped(keys, tabb, tabh, scramble, lg, done)
      && (forall b :: 0 <= b < |tabb| ==> tabb[b].water == 0 || tabb[b].water - 1 in done)
      && FirstFit.AllFirst(keys, tabb, scramble, lg, done)
    }

    /** The length of the longest list. */
    method MaxKeys() returns (maxkeys: nat)
      ensures forall b :: 0 <= b < |tabb| ==> tabb[b].listlen <= maxkeys
    {
      maxkeys := 0;
      for i := 0 to |tabb|
        invariant forall b :: 0 <= b < i ==> tabb[b].listlen <= maxkeys
      {
        if tabb[i].listlen > maxkeys { maxkeys := tabb[i].listlen; }
      }
    }

    /** Map one b under its own watermark, which no earlier b has used. */
    method MapOne(i: nat, ghost done: set<nat>, ghost jam: bool) returns (ok: bool)
      requires i < |tabb| && i !in done && done == FirstFit.Before(keys, |tabb|, i) && CountTo(keys, |keys|, i) > 0
      requires Building(done) && FirstFit.MeansStuck(jam, keys, |tabb|, scramble, lg)
      modifies this`tabb, this`tabh, this`tabq
      ensures |tabb| == |old(tabb)| && |tabq| == |old(tabq)|
      ensures if ok then Building(done + {i}) else done != {} && jam
    {
      ghost var t, h := tabb, tabh;
      ok := Augment(i, i + 1, done);
      if done == {} { AllFree(keys, t, h, scramble, lg, i); }
      if ok {
        FirstIsFirst(keys, t, h, tabb, scramble, lg, i);
      } else {
        NoneIsStuck(keys, t, h, scramble, lg, i);
      }
    }

    /** Map b number i if it has exactly j keys. */
    method MapNext(j: nat, i: nat, ghost jam: bool) returns (ok: bool)
      requires j > 0 && i < |tabb| && Building(DoneSet(keys, |tabb|, j, i))
      requires FirstFit.MeansStuck(jam, keys, |tabb|, scramble, lg)
      modifies this`tabb, this`tabh, this`tabq
      ensures |tabb| == |old(tabb)| && |tabq| == |old(tabq)|
      ensures if ok then Building(DoneSet(keys, |tabb|, j, i + 1)) else |keys| >= 2 && jam
    {
      DoneStep(keys, |tabb|, j, i);
      if tabb[i].listlen != j { return true; }
      DoneIsBefore(keys, |tabb|, j, i);
      ok := MapOne(i, DoneSet(keys, |tabb|, j, i), jam);
      if !ok { TwoKeys(keys, |tabb|, j, i); }
    }

    /** Map every b that has exactly j keys. */
    method MapLevel(j: nat, ghost jam: bool) returns (ok: bool)
      requires j > 0 && Building(DoneSet(keys, |tabb|, j, 0))
      requires FirstFit.MeansStuck(jam, keys, |tabb|, scramble, lg)
      modifies this`tabb, this`tabh, this`tabq
      ensures |tabb| == |old(tabb)| && |tabq| == |old(tabq)|
      ensures if ok then Building(DoneSet(keys, |tabb|, j - 1, 0)) else |keys| >= 2 && jam
    {
      var i := 0;
      while i < |tabb|
        invariant 0 <= i <= |tabb| == |old(tabb)| && |tabq| == |old(tabq)| && Building(DoneSet(keys, |tabb|, j, i))
      {
        ok := MapNext(j, i, jam);
        if !ok { return; }
        i := i + 1;
      }
      DoneNext(keys, |tabb|, j);
      ok := true;
    }

    /** perfect: give every b a value such that no two keys share a slot. */
    method Perfect() returns (ok: bool)
      requires InRange(keys, tabb, scramble, lg) && DistinctPairs(keys) && Linked(keys, next, tabb, |keys|)
      requires Zeroed(tabb, |tabb|) && |tabq| == |tabb| + 1
      modifies this`tabb, this`tabh, this`tabq
      ensures |tabb| == |old(tabb)| && |tabq| == |tabb| + 1
      ensures ok ==> InRange(keys, tabb, scramble, lg) && PerfectFor(keys, tabb, scramble, lg)
      ensures ok ==> FirstFit.Complete(keys, tabb, scramble, lg)
      ensures !ok <==> FirstFit.Stuck(keys, |tabb|, scramble, lg)
      ensures !ok ==> |keys| >= 2
    {
      tabh := seq(Pow2(lg), _ => NIL);
      tabq := seq(|tabb| + 1, _ => QStuff(NIL, 0, 0, 0));
      var maxkeys := MaxKeys();
      DoneNone(keys, tabb, maxkeys);
      ok := MapDown(maxkeys, FirstFit.Stuck(keys, |tabb|, scramble, lg));
      if ok {
        AllDone(keys, next, tabb, tabh, scramble, lg);
        FirstFit.CompleteNotStuck(keys, tabb, scramble, lg);
      }
    }

    /** Map the b's in descending order of their number of keys. */
    method MapDown(maxkeys: nat, ghost jam: bool) returns (ok: bool)
      requires Building(DoneSet(keys, |tabb|, maxkeys, 0)) && FirstFit.MeansStuck(jam, keys, |tabb|, scramble, lg)
      modifies this`tabb, this`tabh, this`tabq
      ensures |tabb| == |old(tabb)| && |tabq| == |old(tabq)|
      ensures if ok then Building(DoneSet(keys, |tabb|, 0, 0)) else |keys| >= 2 && jam
    {
      var j := maxkeys;
      while j > 0
        invariant |tabb| == |old(tabb)| && |tabq| == |old(tabq)| && Building(DoneSet(keys, |tabb|, j, 0))
      {
        ok := MapLevel(j, jam);
        if !ok { return; }
        j := j - 1;
      }
      ok := true;
    }

    // ------------------------------------------------------------ findhash

    /** initnorm: hash every key to (a,b) with this salt. */
    method Initnorm(alen: nat, blen: nat, salt: Word64)
      requires 0 < alen <= Pow2(31) && blen > 0
      modifies this`keys
      ensures Hashed(lookup, old(keys), keys, salt, PowerOfTwo.BitLength(alen - 1), blen)
    {
      var loga := Log2u(alen);
      LogBound(alen, 31);
      var i := 0;
      while i < |keys|
        invariant 0 <= i <= |keys| == |old(keys)|
        invariant forall k :: i <= k < |keys| ==> keys[k] == old(keys)[k]
        invariant forall k :: 0 <= k < i ==> keys[k] == HashKey(lookup, old(keys)[k].name, salt, loga, blen)
      {
        keys := keys[i := HashKey(lookup, keys[i].name, salt, loga, blen)];
        i := i + 1;
      }
    }

    /** Hash the keys with this salt and sort them into lists. */
    method HashAndList(lga: nat, alen: nat, salt: Word64) returns (distinct: bool)
      requires lga <= lg <= 31 && alen == Pow2(lga) && |tabb| > 0 && Scrambled(scramble, lg) && |next| == |keys|
      modifies this`keys, this`next, this`tabb
      ensures |next| == |keys| && Zeroed(tabb, |old(tabb)|)
      ensures Hashed(lookup, old(keys), keys, salt, lga, |tabb|) && InRange(keys, tabb, scramble, lg)
      ensures distinct <==> DistinctUnder(lookup, keys, salt, lga, |tabb|)
      ensures distinct ==> DistinctPairs(keys) && Linked(keys, next, tabb, |keys|)
    {
      PowerOfTwo.BitLengthOnes(lga);
      Pow2Mono(lga, 31);
      Initnorm(alen, |tabb|, salt);
      HashedInRange(lookup, old(keys), keys, salt, lga, |tabb|, lg);
      DistinctHashed(lookup, old(keys), keys, salt, lga, |tabb|);
      ScrambledInRange(scramble, lg);
      distinct := Inittab(false);
    }

    /** One salt: hash the keys, and if all (a,b) are distinct try for a
        perfect hash. */
    method Attempt(lga: nat, alen: nat, salt: Word64) returns (distinct: bool, ok: bool)
      requires lga <= lg <= 31 && alen == Pow2(lga) && |tabb| > 0 && |tabq| == |tabb| + 1
      requires Scrambled(scramble, lg) && |next| == |keys|
      modifies this`keys, this`next, this`tabb, this`tabh, this`tabq
      ensures |tabb| == |old(tabb)| && |next| == |keys| && |tabq| == |tabb| + 1
      ensures Hashed(lookup, old(keys), keys, salt, lga, |tabb|)
      ensures distinct <==> DistinctUnder(lookup, keys, salt, lga, |tabb|)
      ensures ok ==> InRange(keys, tabb, scramble, lg) && PerfectFor(keys, tabb, scramble, lg)
      ensures ok <==> distinct && !FirstFit.Stuck(keys, |tabb|, scramble, lg)
      ensures !ok ==> |keys| >= 2
    {
      distinct := HashAndList(lga, alen, salt);
      ok := false;
      if distinct {
        ok := Perfect();
      }
    }

    /** The widths in use are powers of two within bounds, and every table has
        the length that goes with them. */
    ghost predicate Sized(lga: nat)
      reads this`tabb, this`tabq, this`next, this`keys, this`scramble
    {
      && lga <= lg <= 31 && (lg > 0 ==> lga > 0)
      && IsPow2(|tabb|) && |tabb| <= Pow2(lg) && |tabq| == |tabb| + 1
      && Scrambled(scramble, lg) && |next| == |keys|
    }

    /** initalen with the working tables it sizes. */
    method Prepare()
      requires lg <= 31
      modifies this`tabb, this`tabq, this`next, this`scramble
      ensures Sized(lg) && |tabb| == Initblen(|keys|, Pow2(lg))
    {
      var blen := Initblen(|keys|, Pow2(lg));
      InitblenPow2(|keys|, lg);
      scramble := Scrambleinit(lg);
      tabb := ZeroTable(blen);
      tabq := seq(blen + 1, _ => QStuff(NIL, 0, 0, 0));
      next := seq(|keys|, _ => NIL);
    }

    /** blen *= 2 */
    method DoubleBlen(ghost lga: nat)
      requires Sized(lga) && |tabb| < Pow2(lg)
      modifies this`tabb, this`tabq
      ensures Sized(lga) && |tabb| == 2 * |old(tabb)|
    {
      DoubleWithin(|tabb|, lg);
      var blen := 2 * |tabb|;
      tabb := ZeroTable(blen);
      tabq := seq(blen + 1, _ => QStuff(NIL, 0, 0, 0));
    }

    /** One try of the plan. */
    method OneTry(t: Try, ghost k0: seq<Key>) returns (distinct: bool, ok: bool)
      requires Sized(t.lga) && |tabb| == t.blen && Renamed(k0, keys)
      modifies this`keys, this`next, this`tabb, this`tabh, this`tabq
      ensures Sized(t.lga) && |tabb| == t.blen && Renamed(k0, keys)
      ensures Hashed(lookup, k0, keys, SaltOf(t.si), t.lga, t.blen)
      ensures ValidTry(t, lg) && (distinct <==> Distinct(lookup, k0, lg, t))
      ensures ok <==> distinct && !Jams(lookup, k0, lg, t)
      ensures distinct ==> Separated(lookup, keys, SaltOf(t.si))
      ensures ok ==> InRange(keys, tabb, scramble, lg) && PerfectFor(keys, tabb, scramble, lg)
      ensures !ok ==> |keys| >= 2
    {
      var salt := SaltOf(t.si);
      ghost var before := keys;
      distinct, ok := Attempt(t.lga, Pow2(t.lga), salt);
      SameNames(lookup, k0, before, keys, salt, t.lga, t.blen);
      SameDistinct(lookup, k0, keys, salt, t.lga, t.blen);
      HashedIsAll(lookup, k0, keys, salt, t.lga, t.blen);
      ScrambledIsWords(scramble, lg);
    }

    /** After a try that failed: count it, and spend more bits on (a,b) when it
        was one too many. */
    method Advance(t: Try, distinct: bool) returns (t': Try)
      requires Sized(t.lga) && |tabb| == t.blen && 0 <= t.si < 0x1_0000_0000
      requires !(distinct && LastChance(lg, t))
      modifies this`tabb, this`tabq
      ensures t' == NextTry(lg, t, distinct) && Sized(t'.lga) && |tabb| == t'.blen && 0 <= t'.si < 0x1_0000_0000
    {
      t' := t;
      if !distinct {
        t' := t'.(badInitkey := t.badInitkey + 1);
        if t'.badInitkey >= RETRY_INITKEY {
          if t.lga < lg {
            t' := t'.(lga := t.lga + 1);
          } else if t.blen < Pow2(lg) {
            DoubleBlen(t.lga);
            t' := t'.(blen := 2 * t.blen);
          }
          t' := t'.(badInitkey := 0, badPerfect := 0);
        }
      } else {
        t' := t'.(badPerfect := t.badPerfect + 1);
        if t'.badPerfect >= RETRY_PERFECT {
          DoubleBlen(t.lga);
          t' := t'.(blen := 2 * t.blen, si := Before(t.si), badPerfect := 0);
        }
      }
      t' := t'.(si := After(t'.si));
    }

    /** What the tables hold when the search has ended with this try. */
    ghost predicate Ended(k0: seq<Key>, t: Try, r: Search)
      reads this`keys, this`tabb, this`scramble
      requires 0 <= t.si < 0x1_0000_0000 && t.lga <= 64 && t.blen > 0
    {
      && (r.Found? ==> InRange(keys, tabb, scramble, lg) && PerfectFor(keys, tabb, scramble, lg))
      && (r.Found? ==> Hashed(lookup, k0, keys, SaltOf(t.si), t.lga, t.blen))
      && (!r.OutOfSteps? ==> Separated(lookup, keys, SaltOf(t.si)))
    }

    /** One round of findhash: a try, and what to try next when it was not the
        last. */
    method Round(t: Try, ghost k0: seq<Key>, ghost left: nat, ghost ends: (Try, nat) -> (Search, Try))
      returns (t': Try, r: Search)
      requires Sized(t.lga) && |tabb| == t.blen && Renamed(k0, keys) && 0 <= t.si < 0x1_0000_0000 && left > 0
      requires Outcomes(lookup, k0, lg, ends)
      modifies this`keys, this`next, this`tabb, this`tabh, this`tabq
      ensures Sized(t'.lga) && |tabb| == t'.blen && Renamed(k0, keys) && 0 <= t'.si < 0x1_0000_0000
      ensures ends(t, left) == if r.OutOfSteps? then ends(t', left - 1) else (r, t')
      ensures Ended(k0, t', r) && (r.OutOfSteps? || t' == t) && (|keys| < 2 ==> r.Found?)
    {
      var distinct, ok := OneTry(t, k0);
      assert ends(t, left) == SearchFrom(lookup, k0, lg, t, left);
      if ok { return t, Found; }
      if distinct && LastChance(lg, t) { return t, Failed; }
      t' := Advance(t, distinct);
      r := OutOfSteps;
      assert ends(t', left - 1) == SearchFrom(lookup, k0, lg, t', left - 1);
    }

    /** The rounds of findhash, from a first try on. */
    method Rounds(first: Try, steps: nat, ghost k0: seq<Key>, ghost ends: (Try, nat) -> (Search, Try))
      returns (r: Search, last: Try)
      requires Sized(first.lga) && |tabb| == first.blen && Renamed(k0, keys) && 0 <= first.si < 0x1_0000_0000
      requires Outcomes(lookup, k0, lg, ends)
      modifies this`keys, this`next, this`tabb, this`tabh, this`tabq
      ensures Sized(last.lga) && |tabb| == last.blen && Renamed(k0, keys) && 0 <= last.si < 0x1_0000_0000
      ensures Ended(k0, last, r) && (r, last) == ends(first, steps)
      ensures |keys| < 2 ==> !r.Failed? && last.lga == first.lga && (steps > 0 ==> r.Found?)
    {
      var left: nat := steps;
      r, last := OutOfSteps, first;
      while left > 0
        invariant Sized(last.lga) && |tabb| == last.blen && Renamed(k0, keys) && 0 <= last.si < 0x1_0000_0000
        invariant r.OutOfSteps? && ends(last, left) == ends(first, steps)
        invariant |keys| < 2 ==> left == steps && last == first
        decreases left
      {
        last, r := Round(last, k0, left, ends);
        if !r.OutOfSteps? { return; }
        left := left - 1;
      }
      NoSteps(lookup, k0, lg, last, ends);
    }

    /** findhash: try salts, widening (a,b) when that keeps failing, until the
        keys have a perfect hash or the widest table has failed too.  The
        search may go on for ever, so it is given a number of salts to try. */
    method Findhash(steps: nat) returns (r: Search, last: Try)
      requires lg <= 31
      modifies this`keys, this`next, this`tabb, this`tabh, this`tabq, this`scramble
      ensures Renamed(old(keys), keys) && 0 <= last.si < 0x1_0000_0000
      ensures Sized(last.lga) && |tabb| == last.blen && Ended(old(keys), last, r)
      ensures |keys| < 2 ==> !r.Failed? && last.lga == lg && (steps > 0 ==> r.Found?)
      ensures (r, last) == SearchFrom(lookup, old(keys), lg, FirstTry(|keys|, lg), steps)
    {
      Prepare();
      ghost var ends := OutcomesOf(lookup, keys, lg);
      r, last := Rounds(Try(1, lg, |tabb|, 0, 0), steps, keys, ends);
    }
  }

  /** These are the ends of the searches for 2^lg slots. */
  ghost predicate Outcomes(lookup: (string, Word64) -> Word64, keys: seq<Key>, lg: nat,
                           ends: (Try, nat) -> (Search, Try)) {
    forall t: Try, n: nat {:trigger SearchFrom(lookup, keys, lg, t, n)} ::
      ValidTry(t, lg) ==> ends(t, n) == SearchFrom(lookup, keys, lg, t, n)
  }

  ghost function OutcomesOf(lookup: (string, Word64) -> Word64, keys: seq<Key>, lg: nat)
    : (f: (Try, nat) -> (Search, Try))
    ensures Outcomes(lookup, keys, lg, f)
  {
    (t: Try, n: nat) => if ValidTry(t, lg) then SearchFrom(lookup, keys, lg, t, n) else (OutOfSteps, t)
  }

  lemma NoSteps(lookup: (string, Word64) -> Word64, keys: seq<Key>, lg: nat, t: Try, ends: (Try, nat) -> (Search, Try))
    requires Outcomes(lookup, keys, lg, ends) && ValidTry(t, lg)
    ensures ends(t, 0) == (OutOfSteps, t)
  {
    assert SearchFrom(lookup, keys, lg, t, 0) == (OutOfSteps, t);
  }

  lemma SameDistinct(lookup: (string, Word64) -> Word64, k0: seq<Key>, k1: seq<Key>, salt: Word64, lga: nat, blen: nat)
    requires Renamed(k0, k1) && lga <= 64 && blen > 0
    ensures DistinctUnder(lookup, k0, salt, lga, blen) <==> DistinctUnder(lookup, k1, salt, lga, blen)
  {
  }

  /** None of the first n values frees the keys of b. */
  ghost predicate NoneFree(keys: seq<Key>, tabh: seq<int>, scramble: seq<nat>, b: nat, n: nat) {
    n <= |scramble| && forall j :: 0 <= j < n ==> !Free(keys, tabh, scramble, b, j)
  }

  /** Item has got the first value that frees its keys; no other value changed. */
  ghost predicate FirstFree(keys: seq<Key>, tabh: seq<int>, scramble: seq<nat>, t0: seq<BStuff>, t1: seq<BStuff>,
                            item: nat) {
    && item < |t1| && FirstFit.Placed(t0, t1, item, t1[item].val) && t1[item].val < |scramble|
    && NoneFree(keys, tabh, scramble, item, t1[item].val) && Free(keys, tabh, scramble, item, t1[item].val)
  }

  lemma FirstIsFirst(keys: seq<Key>, t0: seq<BStuff>, tabh: seq<int>, t1: seq<BStuff>, scramble: seq<nat>, lg: nat,
                     i: nat)
    requires InRange(keys, t0, scramble, lg) && InRange(keys, t1, scramble, lg) && i < |t0|
    requires Mapped(keys, t0, tabh, scramble, lg, FirstFit.Before(keys, |t0|, i))
    requires FirstFit.AllFirst(keys, t0, scramble, lg, FirstFit.Before(keys, |t0|, i))
    requires FirstFree(keys, tabh, scramble, t0, t1, i)
    ensures FirstFit.AllFirst(keys, t1, scramble, lg, FirstFit.Before(keys, |t1|, i) + {i})
  {
    var v := t1[i].val;
    forall u | 0 <= u <= v ensures Free(keys, tabh, scramble, i, u) <==> !FirstFit.Taken(keys, t0, scramble, lg, i, u) {
      FirstFit.FreeIsUntaken(keys, t0, tabh, scramble, lg, i, u);
    }
    FirstFit.FirstMore(keys, t0, t1, scramble, lg, i, v);
  }

  lemma NoneIsStuck(keys: seq<Key>, tabb: seq<BStuff>, tabh: seq<int>, scramble: seq<nat>, lg: nat, i: nat)
    requires InRange(keys, tabb, scramble, lg) && i < |tabb| && CountTo(keys, |keys|, i) > 0
    requires Mapped(keys, tabb, tabh, scramble, lg, FirstFit.Before(keys, |tabb|, i))
    requires FirstFit.AllFirst(keys, tabb, scramble, lg, FirstFit.Before(keys, |tabb|, i))
    requires !exists v :: 0 <= v < SCRAMBLE_LEN && Free(keys, tabh, scramble, i, v)
    ensures FirstFit.StuckAt(keys, tabb, scramble, lg, i)
  {
    forall v | 0 <= v < SCRAMBLE_LEN ensures FirstFit.Taken(keys, tabb, scramble, lg, i, v) {
      FirstFit.FreeIsUntaken(keys, tabb, tabh, scramble, lg, i, v);
    }
  }

  lemma DoneIsBefore(keys: seq<Key>, blen: nat, j: nat, i: nat)
    requires i < blen && CountTo(keys, |keys|, i) == j
    ensures DoneSet(keys, blen, j, i) == FirstFit.Before(keys, blen, i)
  {
  }

  lemma NoneFreeMore(keys: seq<Key>, tabh: seq<int>, scramble: seq<nat>, b: nat, n: nat)
    requires n < |scramble| && NoneFree(keys, tabh, scramble, b, n) && !Free(keys, tabh, scramble, b, n)
    ensures NoneFree(keys, tabh, scramble, b, n + 1)
  {
  }

  lemma DistinctStep(keys: seq<Key>, i: nat)
    requires i < |keys|
    ensures DistinctUpTo(keys, i + 1) <==>
              DistinctUpTo(keys, i) && !exists j :: 0 <= j < i && keys[j].a == keys[i].a && keys[j].b == keys[i].b
    ensures DistinctPairs(keys) ==> DistinctUpTo(keys, i + 1)
  {
  }

  /** Pushing key i on the front of the list of its b. */
  lemma LinkOne(keys: seq<Key>, n0: seq<int>, t0: seq<BStuff>, i: nat, n1: seq<int>, t1: seq<BStuff>)
    requires i < |keys| && keys[i].b < |t0| && Linked(keys, n0, t0, i)
    requires var b := keys[i].b;
             n1 == n0[i := t0[b].list] && t1 == t0[b := t0[b].(listlen := t0[b].listlen + 1, list := i)]
    ensures Linked(keys, n1, t1, i + 1)
  {
  }

  /** h1 is h0 with the keys of b after position p added at their slots. */
  ghost predicate AddedTo(keys: seq<Key>, tabb: seq<BStuff>, scramble: seq<nat>, h0: seq<int>, h1: seq<int>, b: nat,
                          p: int)
    requires b < |tabb| && tabb[b].val < |scramble|
  {
    && |h1| == |h0|
    && (forall h :: 0 <= h < |h1| && h0[h] != NIL ==> h1[h] == h0[h])
    && (forall h :: 0 <= h < |h1| && h1[h] != h0[h] ==>
          0 <= h1[h] < |keys| && p < h1[h] && keys[h1[h]].b == b && Xor(keys[h1[h]].a, scramble[tabb[b].val]) == h)
    && (forall k :: 0 <= k < |keys| && p < k && keys[k].b == b ==>
          var h := Xor(keys[k].a, scramble[tabb[b].val]);
          h < |h1| && h1[h] == k && h0[h] == NIL)
  }

  /** Key k goes on its free slot; p is the next key of b. */
  lemma AddOne(keys: seq<Key>, tabb: seq<BStuff>, scramble: seq<nat>, h0: seq<int>, h1: seq<int>, b: nat, k: nat,
               h: nat, p: int)
    requires DistinctPairs(keys) && b < |tabb| && tabb[b].val < |scramble|
    requires AddedTo(keys, tabb, scramble, h0, h1, b, k)
    requires k < |keys| && keys[k].b == b && h == Xor(keys[k].a, scramble[tabb[b].val]) < |h1| && h1[h] == NIL
    requires LastBefore(keys, k, b, p)
    ensures AddedTo(keys, tabb, scramble, h0, h1[h := k], b, p)
  {
  }

  /** A slot found taken was taken before this b was touched: siblings do not
      collide. */
  lemma TakenBefore(keys: seq<Key>, tabb: seq<BStuff>, scramble: seq<nat>, h0: seq<int>, h1: seq<int>, b: nat, k: nat,
                    h: nat)
    requires DistinctPairs(keys) && b < |tabb| && tabb[b].val < |scramble|
    requires AddedTo(keys, tabb, scramble, h0, h1, b, k)
    requires k < |keys| && keys[k].b == b && h == Xor(keys[k].a, scramble[tabb[b].val]) < |h1| && h1[h] != NIL
    ensures h0[h] != NIL
  {
    if h1[h] != h0[h] {
      SiblingsApart(keys, k, h1[h], scramble[tabb[b].val]);
    }
  }

  function WithVal(tabb: seq<BStuff>, b: nat, newval: nat): seq<BStuff>
    requires b < |tabb|
  {
    tabb[b := tabb[b].(val := newval)]
  }

  lemma WithValKeeps(keys: seq<Key>, next: seq<int>, tabb: seq<BStuff>, scramble: seq<nat>, lg: nat, b: nat,
                     newval: nat)
    requires b < |tabb| && newval < SCRAMBLE_LEN
    ensures InRange(keys, tabb, scramble, lg) ==> InRange(keys, WithVal(tabb, b, newval), scramble, lg)
    ensures Linked(keys, next, tabb, |keys|) ==> Linked(keys, next, WithVal(tabb, b, newval), |keys|)
  {
  }

  /** Adding the keys of one more b at free slots extends the mapping. */
  lemma MappedMore(keys: seq<Key>, tabb: seq<BStuff>, scramble: seq<nat>, lg: nat, h0: seq<int>, h1: seq<int>,
                   done: set<nat>, b: nat, newval: nat)
    requires b < |tabb| && b !in done && newval < SCRAMBLE_LEN
    requires InRange(keys, tabb, scramble, lg) && Mapped(keys, tabb, h0, scramble, lg, done)
    requires AddedTo(keys, WithVal(tabb, b, newval), scramble, h0, h1, b, -1)
    ensures InRange(keys, WithVal(tabb, b, newval), scramble, lg)
    ensures Mapped(keys, WithVal(tabb, b, newval), h1, scramble, lg, done + {b})
  {
  }

  ghost predicate SameVals(t1: seq<BStuff>, t2: seq<BStuff>) {
    |t1| == |t2| && forall b :: 0 <= b < |t1| ==> t1[b].val == t2[b].val
  }

  /** Lists are untouched and watermarks only become highwater. */
  ghost predicate Rewatered(t0: seq<BStuff>, t1: seq<BStuff>, highwater: nat) {
    |t1| == |t0| && forall b :: 0 <= b < |t0| ==>
      && t1[b].list == t0[b].list && t1[b].listlen == t0[b].listlen
      && (t1[b].water == t0[b].water || t1[b].water == highwater)
  }

  ghost function Watered(tabb: seq<BStuff>, highwater: nat): set<nat> {
    set b: nat | b < |tabb| && tabb[b].water == highwater
  }

  /** The queue never outgrows blen + 1 entries: besides the root it holds each
      other b at most once. */
  lemma TailFits(tabb: seq<BStuff>, highwater: nat, item: nat)
    requires item < |tabb| && tabb[item].water != highwater
    ensures |Watered(tabb, highwater)| < |tabb|
  {
    var w := Watered(tabb, highwater) + {item};
    assert w <= Below(|tabb|);
    BelowSize(|tabb|);
    SubsetSize(w, Below(|tabb|));
  }

  /** Distinct keys have distinct final hashes below 2^lg. */
  ghost predicate PerfectFor(keys: seq<Key>, tabb: seq<BStuff>, scramble: seq<nat>, lg: nat)
    requires InRange(keys, tabb, scramble, lg)
  {
    && (forall k :: 0 <= k < |keys| ==> SlotOf(keys, tabb, scramble, k) < Pow2(lg))
    && (forall k, m :: 0 <= k < m < |keys| ==> SlotOf(keys, tabb, scramble, k) != SlotOf(keys, tabb, scramble, m))
  }

  /** The b's handled once the loops of perfect have reached (j, i). */
  ghost function DoneSet(keys: seq<Key>, blen: nat, j: nat, i: nat): set<nat> {
    set b: nat | b < blen && (CountTo(keys, |keys|, b) > j || (b < i && CountTo(keys, |keys|, b) == j))
  }

  lemma DoneStep(keys: seq<Key>, blen: nat, j: nat, i: nat)
    requires i < blen
    ensures DoneSet(keys, blen, j, i + 1)
            == DoneSet(keys, blen, j, i) + (if CountTo(keys, |keys|, i) == j then {i} else {})
    ensures CountTo(keys, |keys|, i) == j ==> i !in DoneSet(keys, blen, j, i)
  {
  }

  lemma DoneNext(keys: seq<Key>, blen: nat, j: nat)
    requires j > 0
    ensures DoneSet(keys, blen, j, blen) == DoneSet(keys, blen, j - 1, 0)
  {
  }

  lemma DoneNone(keys: seq<Key>, tabb: seq<BStuff>, j: nat)
    requires LinkedHeads(keys, tabb, |keys|) && forall b :: 0 <= b < |tabb| ==> tabb[b].listlen <= j
    ensures DoneSet(keys, |tabb|, j, 0) == {}
  {
    forall b: nat | b < |tabb| ensures CountTo(keys, |keys|, b) <= j {
      assert tabb[b].listlen <= j;
    }
  }

  /** With no key placed yet, any value will do. */
  lemma AllFree(keys: seq<Key>, tabb: seq<BStuff>, tabh: seq<int>, scramble: seq<nat>, lg: nat, b: nat)
    requires InRange(keys, tabb, scramble, lg) && Mapped(keys, tabb, tabh, scramble, lg, {})
    ensures Free(keys, tabh, scramble, b, 0)
  {
    forall k | 0 <= k < |keys| && keys[k].b == b
      ensures Xor(keys[k].a, scramble[0]) < |tabh| && tabh[Xor(keys[k].a, scramble[0])] == NIL
    {
      SlotBound(keys, tabb, scramble, lg, k, 0);
    }
  }

  lemma {:induction false} CountWitness(keys: seq<Key>, n: nat, b: nat) returns (k: nat)
    requires n <= |keys| && CountTo(keys, n, b) > 0
    ensures k < n && keys[k].b == b
  {
    if keys[n - 1].b == b { k := n - 1; } else { k := CountWitness(keys, n - 1, b); }
  }

  /** Two different b's with keys need two keys. */
  lemma TwoKeys(keys: seq<Key>, blen: nat, j: nat, i: nat)
    requires j > 0 && i < blen && CountTo(keys, |keys|, i) == j && DoneSet(keys, blen, j, i) != {}
    ensures |keys| >= 2
  {
    var b :| b in DoneSet(keys, blen, j, i);
    var k := CountWitness(keys, |keys|, i);
    var m := CountWitness(keys, |keys|, b);
    assert k != m;
  }

  lemma AllDone(keys: seq<Key>, next: seq<int>, tabb: seq<BStuff>, tabh: seq<int>, scramble: seq<nat>, lg: nat)
    requires InRange(keys, tabb, scramble, lg)
    requires Mapped(keys, tabb, tabh, scramble, lg, DoneSet(keys, |tabb|, 0, 0))
    ensures PerfectFor(keys, tabb, scramble, lg) && DoneSet(keys, |tabb|, 0, 0) == FirstFit.WithKeys(keys, |tabb|)
  {
    forall k: nat | k < |keys|
      ensures keys[k].b in DoneSet(keys, |tabb|, 0, 0)
      ensures SlotOf(keys, tabb, scramble, k) < Pow2(lg) && tabh[SlotOf(keys, tabb, scramble, k)] == k
    {
      CountPositive(keys, |keys|, keys[k].b, k);
    }
  }

  // ---------------------------------------------------------- initial hashes

  lemma HashedInRange(lookup: (string, Word64) -> Word64, k0: seq<Key>, k1: seq<Key>, salt: Word64, lga: nat,
                      blen: nat, lg: nat)
    requires Hashed(lookup, k0, k1, salt, lga, blen) && lga <= lg
    ensures forall k :: 0 <= k < |k1| ==> k1[k].a < Pow2(lg) && k1[k].b < blen
  {
    forall k | 0 <= k < |k1| ensures k1[k].a < Pow2(lg) && k1[k].b < blen {
      PartARange(lookup(k0[k].name, salt), lga);
      Pow2Mono(lga, lg);
    }
  }

  lemma DistinctHashed(lookup: (string, Word64) -> Word64, k0: seq<Key>, k1: seq<Key>, salt: Word64, lga: nat,
                       blen: nat)
    requires Hashed(lookup, k0, k1, salt, lga, blen)
    ensures DistinctPairs(k1) <==> DistinctUnder(lookup, k1, salt, lga, blen)
  {
  }

  /** The keys keep their names and order. */
  ghost predicate Renamed(k0: seq<Key>, k1: seq<Key>) {
    |k1| == |k0| && forall k :: 0 <= k < |k1| ==> k1[k].name == k0[k].name
  }

  /** The initial hash of this salt tells all the keys apart. */
  ghost predicate Separated(lookup: (string, Word64) -> Word64, keys: seq<Key>, salt: Word64) {
    forall i, j :: 0 <= i < j < |keys| ==> lookup(keys[i].name, salt) != lookup(keys[j].name, salt)
  }

  lemma Fraction(lg: nat, part: nat, d: nat, q: nat)
    requires d == Pow2(part) && q == Pow2(lg) / d
    ensures q == 0 || (IsPow2(q) && q <= Pow2(lg))
  {
    if lg >= part {
      Pow2Add(part, lg - part);
      DivUnique(Pow2(lg), d, Pow2(lg - part), 0);
      IsPow2Intro(lg - part);
      Pow2Mono(lg - part, lg);
    } else {
      Pow2Mono(lg, part);
      DivUnique(Pow2(lg), d, 0, Pow2(lg));
    }
  }

  /** The first blen is a power of two no larger than smax. */
  lemma InitblenPow2(nkeys: nat, lg: nat)
    ensures IsPow2(Initblen(nkeys, Pow2(lg))) && Initblen(nkeys, Pow2(lg)) <= Pow2(lg)
  {
    assert Pow2(0) == 1 && Pow2(1) == 2 && Pow2(2) == 4;
    assert Pow2(3) == 8 && Pow2(4) == 16;
    Fraction(lg, 2, 4, Pow2(lg) / 4);
    Fraction(lg, 3, 8, Pow2(lg) / 8);
    Fraction(lg, 4, 16, Pow2(lg) / 16);
    IsPow2Intro(0);
  }

  lemma DoubleWithin(n: nat, lg: nat)
    requires IsPow2(n) && n < Pow2(lg)
    ensures IsPow2(2 * n) && 2 * n <= Pow2(lg)
  {
    var k: nat :| k < n && n == Pow2(k);
    if k >= lg { Pow2Mono(lg, k); }
    Pow2Mono(k, lg);
    IsPow2Intro(k + 1);
  }

  /** A round of hashing keeps the names, so a fact about names outlives it. */
  lemma SameNames(lookup: (string, Word64) -> Word64, k0: seq<Key>, k1: seq<Key>, k2: seq<Key>, salt: Word64,
                  lga: nat, blen: nat)
    requires Renamed(k0, k1) && Hashed(lookup, k1, k2, salt, lga, blen)
    ensures Renamed(k0, k2) && Hashed(lookup, k0, k2, salt, lga, blen)
    ensures DistinctUnder(lookup, k1, salt, lga, blen) <==> DistinctUnder(lookup, k2, salt, lga, blen)
    ensures DistinctUnder(lookup, k2, salt, lga, blen) ==> Separated(lookup, k2, salt)
  {
  }

  lemma ScrambledInRange(scramble: seq<nat>, lg: nat)
    requires Scrambled(scramble, lg)
    ensures forall i :: 0 <= i < |scramble| ==> scramble[i] < Pow2(lg)
  {
    forall i | 0 <= i < |scramble| ensures scramble[i] < Pow2(lg) { PermuteRange(i, lg); }
  }

  lemma LogBound(n: nat, k: nat)
    requires 0 < n <= Pow2(k)
    ensures PowerOfTwo.BitLength(n - 1) <= k
  {
    PowerOfTwo.BitLengthBound(n - 1, k);
  }

  /** log2u: the least i with n <= 1 << i. */
  method Log2u(n: nat) returns (i: nat)
    ensures n <= Pow2(i) && (i > 0 ==> Pow2(i - 1) < n)
    ensures n > 0 ==> i == PowerOfTwo.BitLength(n - 1)
  {
    i := 0;
    Pow2Grows(n);
    while Pow2(i) < n
      invariant i > 0 ==> Pow2(i - 1) < n
      invariant i <= n
      decreases n - i
    {
      Pow2Grows(i);
      i := i + 1;
    }
    if n > 0 { LogUnique(n, i); }
  }

  lemma LogUnique(n: nat, i: nat)
    requires n > 0 && n <= Pow2(i) && (i > 0 ==> Pow2(i - 1) < n)
    ensures i == PowerOfTwo.BitLength(n - 1)
  {
    PowerOfTwo.BitLengthBound(n - 1, i);
    if i > 0 { PowerOfTwo.BitLengthBound(n - 1, i - 1); }
  }

  /** permute's loop, on 32-bit words. */
  method PermuteLoop(x: nat, nbits: nat) returns (r: nat)
    requires nbits <= 31
    ensures r == Permute(x, nbits)
  {
    r := x;
    for i := 0 to 20
      invariant r == Rounds32(x, nbits, i)
    {
      r := AddShift32(r, 1 + nbits / 2, nbits);
      r := XorShift(r, 1 + nbits / 3);
      r := AddShift32(r, 1 + nbits / 4, nbits);
      r := XorShift(r, 1 + nbits / 5);
    }
    RoundsWrap(x, nbits, 20);
  }

  /** scrambleinit: every entry is below smax. */
  method Scrambleinit(lg: nat) returns (scramble: seq<nat>)
    requires lg <= 31
    ensures Scrambled(scramble, lg)
    ensures forall i :: 0 <= i < |scramble| ==> scramble[i] < Pow2(lg)
  {
    scramble := [];
    for i := 0 to SCRAMBLE_LEN
      invariant |scramble| == i
      invariant forall k :: 0 <= k < i ==> scramble[k] == Permute(k, lg) && scramble[k] < Pow2(lg)
    {
      PermuteRange(i, lg);
      var p := PermuteLoop(i, lg);
      scramble := scramble + [p];
    }
  }
}
