/** The search of findhash as a plan: which salts and widths are tried one after
    the other, and how the search ends. */
module SaltSearch {
  import opened Bits
  import opened PerfectHashSpec
  import opened Permutation
  import FirstFit

  const RETRY_INITKEY: nat := 2048
  const RETRY_PERFECT: nat := 4
  const GOLDEN: nat := 0x9e3779b97f4a7c13

  /** The key of this name under this salt. */
  function HashKey(lookup: (string, Word64) -> Word64, name: string, salt: Word64, lga: nat, blen: nat): Key
    requires lga <= 64 && blen > 0
  {
    Key(name, PartA(lookup(name, salt), lga), PartB(lookup(name, salt), blen))
  }

  ghost predicate Hashed(lookup: (string, Word64) -> Word64, k0: seq<Key>, k1: seq<Key>, salt: Word64, lga: nat,
                         blen: nat) {
    && lga <= 64 && blen > 0 && |k1| == |k0|
    && forall k :: 0 <= k < |k1| ==> k1[k] == HashKey(lookup, k0[k].name, salt, lga, blen)
  }

  ghost predicate Scrambled(scramble: seq<nat>, lg: nat) {
    |scramble| == SCRAMBLE_LEN && forall i :: 0 <= i < |scramble| ==> scramble[i] == Permute(i, lg)
  }

  /** What findhash ends with. */
  datatype Search = Found | Failed | OutOfSteps

  /** The salt tried at step si. */
  function SaltOf(si: nat): Word64 { (si * GOLDEN) % 0x1_0000_0000_0000_0000 }

  /** ++si and --si on 32 bits. */
  function After(si: nat): nat { if si == 0xffff_ffff then 0 else si + 1 }
  function Before(si: nat): nat { if si == 0 then 0xffff_ffff else si - 1 }

  /** initalen's first blen: the fuller the table, the larger. */
  function Initblen(nkeys: nat, smax: nat): nat {
    var blen := if 5 * nkeys <= 3 * smax then smax / 16 else if 5 * nkeys <= 4 * smax then smax / 8 else smax / 4;
    if blen < 1 then 1 else blen
  }

  /** The keys before they are hashed. */
  function KeysOf(names: seq<string>): (keys: seq<Key>)
    ensures |keys| == |names| && forall k :: 0 <= k < |keys| ==> keys[k].name == names[k]
  {
    seq(|names|, k requires 0 <= k < |names| => Key(names[k], 0, 0))
  }

  /** All keys under this salt. */
  function HashAll(lookup: (string, Word64) -> Word64, keys: seq<Key>, salt: Word64, lga: nat, blen: nat): seq<Key>
    requires lga <= 64 && blen > 0
  {
    seq(|keys|, k requires 0 <= k < |keys| => HashKey(lookup, keys[k].name, salt, lga, blen))
  }

  lemma HashedIsAll(lookup: (string, Word64) -> Word64, k0: seq<Key>, k1: seq<Key>, salt: Word64, lga: nat, blen: nat)
    requires Hashed(lookup, k0, k1, salt, lga, blen)
    ensures k1 == HashAll(lookup, k0, salt, lga, blen)
  {
  }

  /** One salt, the widths of a and b it is tried with, and how often in a row
      the pairs were not distinct or the placement got stuck. */
  datatype Try = Try(si: nat, lga: nat, blen: nat, badInitkey: nat, badPerfect: nat)

  predicate ValidTry(t: Try, lg: nat) { t.lga <= lg <= 31 && t.blen > 0 }

  function FirstTry(nkeys: nat, lg: nat): Try { Try(1, lg, Initblen(nkeys, Pow2(lg)), 0, 0) }

  /** After a try that failed: another salt, or more bits. */
  function NextTry(lg: nat, t: Try, distinct: bool): Try {
    if !distinct then
      if t.badInitkey + 1 < RETRY_INITKEY then t.(si := After(t.si), badInitkey := t.badInitkey + 1)
      else
        Try(After(t.si), if t.lga < lg then t.lga + 1 else t.lga,
            if t.lga >= lg && t.blen < Pow2(lg) then 2 * t.blen else t.blen, 0, 0)
    else if t.badPerfect + 1 < RETRY_PERFECT then t.(si := After(t.si), badPerfect := t.badPerfect + 1)
    else t.(blen := 2 * t.blen, badPerfect := 0)
  }

  /** The keys have distinct pairs in this try. */
  ghost predicate Distinct(lookup: (string, Word64) -> Word64, keys: seq<Key>, lg: nat, t: Try)
    requires ValidTry(t, lg)
  {
    DistinctUnder(lookup, keys, SaltOf(t.si), t.lga, t.blen)
  }

  /** First-fit gets stuck on those pairs. */
  ghost predicate Jams(lookup: (string, Word64) -> Word64, keys: seq<Key>, lg: nat, t: Try)
    requires ValidTry(t, lg)
  {
    FirstFit.Stuck(HashAll(lookup, keys, SaltOf(t.si), t.lga, t.blen), t.blen, Words(lg), lg)
  }

  /** The scramble words for 2^lg slots. */
  function Words(lg: nat): (w: seq<nat>)
    ensures Scrambled(w, lg)
  {
    seq(SCRAMBLE_LEN, (i: nat) => Permute(i, lg))
  }

  lemma ScrambledIsWords(scramble: seq<nat>, lg: nat)
    requires Scrambled(scramble, lg)
    ensures scramble == Words(lg)
  {
  }

  /** The placement has jammed four times in a row and b has its full width. */
  predicate LastChance(lg: nat, t: Try) { t.blen >= Pow2(lg) && t.badPerfect + 1 >= RETRY_PERFECT }

  /** How a search of so many steps ends, and with which try: it finds a hash at
      the first try with distinct pairs that do not jam, and it fails when the
      last chance jams. */
  ghost function SearchFrom(lookup: (string, Word64) -> Word64, keys: seq<Key>, lg: nat, t: Try, steps: nat)
    : (Search, Try)
    requires ValidTry(t, lg)
    decreases steps
  {
    if steps == 0 then (OutOfSteps, t)
    else
      var distinct := Distinct(lookup, keys, lg, t);
      if distinct && !Jams(lookup, keys, lg, t) then (Found, t)
      else if distinct && LastChance(lg, t) then (Failed, t)
      else SearchFrom(lookup, keys, lg, NextTry(lg, t, distinct), steps - 1)
  }

  /** When a salt is tried again with a wider b, its pairs are still distinct. */
  lemma RetryIsDistinct(lookup: (string, Word64) -> Word64, keys: seq<Key>, lg: nat, t: Try)
    requires ValidTry(t, lg) && Distinct(lookup, keys, lg, t) && t.badPerfect + 1 >= RETRY_PERFECT
    ensures NextTry(lg, t, true).si == t.si && Distinct(lookup, keys, lg, NextTry(lg, t, true))
  {
    DoublingKeepsDistinct(lookup, keys, SaltOf(t.si), t.lga, t.blen);
  }

  /** A search that has ended ends the same way with more steps. */
  lemma {:induction false} MoreSteps(lookup: (string, Word64) -> Word64, keys: seq<Key>, lg: nat, t: Try, steps: nat,
                                     more: nat)
    requires ValidTry(t, lg) && steps <= more && !SearchFrom(lookup, keys, lg, t, steps).0.OutOfSteps?
    ensures SearchFrom(lookup, keys, lg, t, more) == SearchFrom(lookup, keys, lg, t, steps)
    decreases steps
  {
    var distinct := Distinct(lookup, keys, lg, t);
    if !(distinct && !Jams(lookup, keys, lg, t)) && !(distinct && LastChance(lg, t)) {
      MoreSteps(lookup, keys, lg, NextTry(lg, t, distinct), steps - 1, more - 1);
    }
  }
}
