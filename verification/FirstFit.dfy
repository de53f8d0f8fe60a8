/** What perfect computes, without its tables: the b's take their values one
    after the other, those with more keys first, and each takes the first value
    that puts none of its keys on the slot of a key placed before. */
module FirstFit {
  import opened Bits
  import opened PerfectHashSpec

  /** b' takes its value before b. */
  predicate Earlier(keys: seq<Key>, b': nat, b: nat) {
    var n', n := CountTo(keys, |keys|, b'), CountTo(keys, |keys|, b);
    n' > n || (n' == n && b' < b)
  }

  /** With value v, key k of b would take the slot of key m of an earlier b. */
  ghost predicate Clash(keys: seq<Key>, tabb: seq<BStuff>, scramble: seq<nat>, lg: nat, b: nat, v: nat, k: nat, m: nat)
    requires InRange(keys, tabb, scramble, lg) && v < SCRAMBLE_LEN
  {
    && k < |keys| && m < |keys| && keys[k].b == b && Earlier(keys, keys[m].b, b)
    && Xor(keys[k].a, scramble[v]) == SlotOf(keys, tabb, scramble, m)
  }

  ghost predicate Taken(keys: seq<Key>, tabb: seq<BStuff>, scramble: seq<nat>, lg: nat, b: nat, v: nat)
    requires InRange(keys, tabb, scramble, lg) && v < SCRAMBLE_LEN
  {
    exists k: nat, m: nat :: Clash(keys, tabb, scramble, lg, b, v, k, m)
  }

  /** The first n values are taken. */
  ghost predicate TakenTo(keys: seq<Key>, tabb: seq<BStuff>, scramble: seq<nat>, lg: nat, b: nat, n: nat)
    requires InRange(keys, tabb, scramble, lg) && n <= SCRAMBLE_LEN
  {
    forall v :: 0 <= v < n ==> Taken(keys, tabb, scramble, lg, b, v)
  }

  /** The value of b is the first that is not taken. */
  ghost predicate First(keys: seq<Key>, tabb: seq<BStuff>, scramble: seq<nat>, lg: nat, b: nat)
    requires InRange(keys, tabb, scramble, lg) && b < |tabb|
  {
    TakenTo(keys, tabb, scramble, lg, b, tabb[b].val) && !Taken(keys, tabb, scramble, lg, b, tabb[b].val)
  }

  ghost predicate AllFirst(keys: seq<Key>, tabb: seq<BStuff>, scramble: seq<nat>, lg: nat, done: set<nat>)
    requires InRange(keys, tabb, scramble, lg)
  {
    forall b {:trigger First(keys, tabb, scramble, lg, b)} :: b in done ==>
      b < |tabb| && First(keys, tabb, scramble, lg, b)
  }

  /** Everything that comes before b. */
  ghost function Before(keys: seq<Key>, blen: nat, b: nat): set<nat> {
    set b': nat | b' < blen && Earlier(keys, b', b)
  }

  /** All values are taken for a b that has a key, when all earlier b's have
      their values. */
  ghost predicate StuckAt(keys: seq<Key>, tabb: seq<BStuff>, scramble: seq<nat>, lg: nat, b: nat) {
    && InRange(keys, tabb, scramble, lg) && b < |tabb| && CountTo(keys, |keys|, b) > 0
    && AllFirst(keys, tabb, scramble, lg, Before(keys, |tabb|, b))
    && TakenTo(keys, tabb, scramble, lg, b, SCRAMBLE_LEN)
  }

  /** First-fit gets stuck on these keys with so many b's. */
  ghost predicate Stuck(keys: seq<Key>, blen: nat, scramble: seq<nat>, lg: nat) {
    exists tabb: seq<BStuff>, b: nat :: |tabb| == blen && StuckAt(keys, tabb, scramble, lg, b)
  }

  /** Getting stuck anywhere on these keys makes this true. */
  ghost predicate MeansStuck(jam: bool, keys: seq<Key>, blen: nat, scramble: seq<nat>, lg: nat) {
    forall tabb: seq<BStuff>, b: nat {:trigger StuckAt(keys, tabb, scramble, lg, b)} ::
      |tabb| == blen && StuckAt(keys, tabb, scramble, lg, b) ==> jam
  }

  /** Every b with a key. */
  ghost function WithKeys(keys: seq<Key>, blen: nat): set<nat> {
    set b: nat | b < blen && CountTo(keys, |keys|, b) > 0
  }

  /** First-fit has given every b with a key its value. */
  ghost predicate Complete(keys: seq<Key>, tabb: seq<BStuff>, scramble: seq<nat>, lg: nat) {
    InRange(keys, tabb, scramble, lg) && AllFirst(keys, tabb, scramble, lg, WithKeys(keys, |tabb|))
  }

  // --------------------------------------------------------- one more value

  /** With the keys of the earlier b's on their slots, a value is free for b
      exactly when it is not taken. */
  lemma FreeIsUntaken(keys: seq<Key>, tabb: seq<BStuff>, tabh: seq<int>, scramble: seq<nat>, lg: nat, b: nat, v: nat)
    requires InRange(keys, tabb, scramble, lg) && v < SCRAMBLE_LEN
    requires Mapped(keys, tabb, tabh, scramble, lg, Before(keys, |tabb|, b))
    ensures Free(keys, tabh, scramble, b, v) <==> !Taken(keys, tabb, scramble, lg, b, v)
  {
    if Taken(keys, tabb, scramble, lg, b, v) {
      var k: nat, m: nat :| Clash(keys, tabb, scramble, lg, b, v, k, m);
      assert keys[m].b in Before(keys, |tabb|, b);
    } else {
      forall k | 0 <= k < |keys| && keys[k].b == b
        ensures Xor(keys[k].a, scramble[v]) < |tabh| && tabh[Xor(keys[k].a, scramble[v])] == NIL
      {
        SlotBound(keys, tabb, scramble, lg, k, v);
        var m := tabh[Xor(keys[k].a, scramble[v])];
        if m != NIL { assert Clash(keys, tabb, scramble, lg, b, v, k, m); }
      }
    }
  }

  /** t1 is t0 with value v for b. */
  ghost predicate Placed(t0: seq<BStuff>, t1: seq<BStuff>, b: nat, v: nat) {
    && |t1| == |t0| && b < |t1| && t1[b].val == v
    && forall b' :: 0 <= b' < |t0| && b' != b ==> t1[b'].val == t0[b'].val
  }

  /** Giving b the first value that is not taken disturbs no earlier b. */
  lemma FirstMore(keys: seq<Key>, t0: seq<BStuff>, t1: seq<BStuff>, scramble: seq<nat>, lg: nat, b: nat, v: nat)
    requires InRange(keys, t0, scramble, lg) && InRange(keys, t1, scramble, lg)
    requires Placed(t0, t1, b, v) && v < SCRAMBLE_LEN
    requires AllFirst(keys, t0, scramble, lg, Before(keys, |t0|, b))
    requires TakenTo(keys, t0, scramble, lg, b, v) && !Taken(keys, t0, scramble, lg, b, v)
    ensures AllFirst(keys, t1, scramble, lg, Before(keys, |t1|, b) + {b})
  {
    FirstSame(keys, t0, t1, scramble, lg, b, b, v);
    forall b' | b' in Before(keys, |t1|, b) ensures b' < |t1| && First(keys, t1, scramble, lg, b') {
      assert First(keys, t0, scramble, lg, b');
      FirstSame(keys, t0, t1, scramble, lg, b, b', t0[b'].val);
    }
  }

  lemma FirstSame(keys: seq<Key>, t0: seq<BStuff>, t1: seq<BStuff>, scramble: seq<nat>, lg: nat, b: nat, b': nat,
                  v: nat)
    requires InRange(keys, t0, scramble, lg) && InRange(keys, t1, scramble, lg)
    requires b < |t1| && Placed(t0, t1, b, t1[b].val)
    requires b' == b || Earlier(keys, b', b)
    requires b' < |t1| && t1[b'].val == v
    requires TakenTo(keys, t0, scramble, lg, b', v) && !Taken(keys, t0, scramble, lg, b', v)
    ensures First(keys, t1, scramble, lg, b')
  {
    TakenSame(keys, t1, t0, scramble, lg, b', v);
    forall u | 0 <= u < v ensures Taken(keys, t1, scramble, lg, b', u) { TakenSame(keys, t0, t1, scramble, lg, b', u); }
  }

  // ------------------------------------------------------------- uniqueness

  /** What is taken depends on the values of the earlier b's only. */
  lemma TakenSame(keys: seq<Key>, t1: seq<BStuff>, t2: seq<BStuff>, scramble: seq<nat>, lg: nat, b: nat, v: nat)
    requires InRange(keys, t1, scramble, lg) && InRange(keys, t2, scramble, lg) && |t1| == |t2| && v < SCRAMBLE_LEN
    requires forall b' :: 0 <= b' < |t1| && Earlier(keys, b', b) && CountTo(keys, |keys|, b') > 0 ==>
               t1[b'].val == t2[b'].val
    ensures Taken(keys, t1, scramble, lg, b, v) ==> Taken(keys, t2, scramble, lg, b, v)
  {
    if Taken(keys, t1, scramble, lg, b, v) {
      var k: nat, m: nat :| Clash(keys, t1, scramble, lg, b, v, k, m);
      CountPositive(keys, |keys|, keys[m].b, m);
      assert Clash(keys, t2, scramble, lg, b, v, k, m);
    }
  }

  ghost predicate SameBefore(keys: seq<Key>, t1: seq<BStuff>, t2: seq<BStuff>, b: nat) {
    && |t1| == |t2|
    && forall b' :: 0 <= b' < |t1| && Earlier(keys, b', b) && CountTo(keys, |keys|, b') > 0 ==>
         t1[b'].val == t2[b'].val
  }

  /** First-fit has only one result: two placements agree on every b that both
      have reached. */
  lemma {:induction false} Agree(keys: seq<Key>, t1: seq<BStuff>, t2: seq<BStuff>, scramble: seq<nat>, lg: nat, b: nat)
    requires InRange(keys, t1, scramble, lg) && InRange(keys, t2, scramble, lg) && |t1| == |t2|
    requires b < |t1| && CountTo(keys, |keys|, b) > 0
    requires AllFirst(keys, t1, scramble, lg, Before(keys, |t1|, b))
    requires AllFirst(keys, t2, scramble, lg, Before(keys, |t1|, b))
    ensures SameBefore(keys, t1, t2, b)
    ensures First(keys, t1, scramble, lg, b) && First(keys, t2, scramble, lg, b) ==> t1[b].val == t2[b].val
    decreases |keys| - CountTo(keys, |keys|, b), b
  {
    forall b' | 0 <= b' < |t1| && Earlier(keys, b', b) && CountTo(keys, |keys|, b') > 0
      ensures t1[b'].val == t2[b'].val
    {
      CountAtMost(keys, |keys|, b');
      EarlierTrans(keys, |t1|, b', b);
      assert b' in Before(keys, |t1|, b);
      Agree(keys, t1, t2, scramble, lg, b');
    }
    if First(keys, t1, scramble, lg, b) && First(keys, t2, scramble, lg, b) {
      if t1[b].val < t2[b].val { TakenSame(keys, t2, t1, scramble, lg, b, t1[b].val); }
      if t2[b].val < t1[b].val { TakenSame(keys, t1, t2, scramble, lg, b, t2[b].val); }
    }
  }

  lemma EarlierTrans(keys: seq<Key>, blen: nat, b': nat, b: nat)
    requires Earlier(keys, b', b)
    ensures Before(keys, blen, b') <= Before(keys, blen, b)
  {
  }

  lemma {:induction false} CountAtMost(keys: seq<Key>, n: nat, b: nat)
    requires n <= |keys|
    ensures CountTo(keys, n, b) <= n
  {
    if n > 0 { CountAtMost(keys, n - 1, b); }
  }

  lemma BeforeHasKeys(keys: seq<Key>, blen: nat, b: nat)
    requires CountTo(keys, |keys|, b) > 0
    ensures Before(keys, blen, b) <= WithKeys(keys, blen)
  {
  }

  /** It either completes or gets stuck, not both. */
  lemma CompleteNotStuck(keys: seq<Key>, tabb: seq<BStuff>, scramble: seq<nat>, lg: nat)
    requires Complete(keys, tabb, scramble, lg)
    ensures !Stuck(keys, |tabb|, scramble, lg)
  {
    if Stuck(keys, |tabb|, scramble, lg) {
      var t: seq<BStuff>, b: nat :| |t| == |tabb| && StuckAt(keys, t, scramble, lg, b);
      BeforeHasKeys(keys, |tabb|, b);
      assert b in WithKeys(keys, |tabb|);
      Agree(keys, tabb, t, scramble, lg, b);
      assert First(keys, tabb, scramble, lg, b);
      assert Taken(keys, t, scramble, lg, b, tabb[b].val);
      TakenSame(keys, t, tabb, scramble, lg, b, tabb[b].val);
    }
  }
}
