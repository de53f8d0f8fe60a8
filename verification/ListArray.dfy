/** list_array_tt: no list, one list, or an array of lists, with the newest
    lists in front.  A list is an array of elements. */
module ListArray {
  /** The tagged union. */
  datatype Rep<E> = Empty | Single(list: array<E>) | Many(lists: seq<array<E>>)

  function Concat<E>(lists: seq<seq<E>>): seq<E> {
    if lists == [] then [] else lists[0] + Concat(lists[1..])
  }

  predicate NoneEmpty<E>(lists: seq<seq<E>>) { forall i :: 0 <= i < |lists| ==> |lists[i]| > 0 }

  /** The batches of a sequence of attachLists calls, last call first. */
  function NewestFirst<T>(batches: seq<seq<T>>): seq<T> {
    if batches == [] then [] else batches[|batches| - 1] + NewestFirst(batches[..|batches| - 1])
  }

  lemma {:induction false} ConcatAppend<E>(a: seq<seq<E>>, l: seq<E>)
    ensures Concat(a + [l]) == Concat(a) + l
  {
    if a == [] {
      assert [] + [l] == [l] && Concat([l]) == l + Concat([]);
    } else {
      ConcatAppend(a[1..], l);
      assert (a + [l])[1..] == a[1..] + [l];
    }
  }

  lemma WrapAdd(a: nat, b: nat)
    ensures (a % 0x1_0000_0000 + b) % 0x1_0000_0000 == (a + b) % 0x1_0000_0000
  {
  }

  /** What the lists hold. */
  ghost function Elements<E>(lists: seq<array<E>>): (e: seq<seq<E>>)
    reads lists
    ensures |e| == |lists| && forall i :: 0 <= i < |e| ==> e[i] == lists[i][..]
  {
    seq(|lists|, i requires 0 <= i < |lists| reads lists => lists[i][..])
  }

  // -------------------------------------------------------------- iteration

  /** A loop from begin() to end(): what it visits, and whether it stays inside
      the lists.  The iterator stands on element m of list number at; it enters
      a list without looking whether the list has an element. */
  function Visit<E>(lists: seq<seq<E>>, at: nat, m: nat): (seq<E>, bool)
    requires at <= |lists| && (at < |lists| ==> m <= |lists[at]|)
    decreases |lists| - at, if at < |lists| then |lists[at]| - m else 0
  {
    if at == |lists| then ([], true)
    else if m == |lists[at]| then ([], false)
    else
      var rest := if m + 1 == |lists[at]| then Visit(lists, at + 1, 0) else Visit(lists, at, m + 1);
      ([lists[at][m]] + rest.0, rest.1)
  }

  function Iteration<E>(lists: seq<seq<E>>): (seq<E>, bool) { Visit(lists, 0, 0) }

  /** A loop that has seen so much and stands on element m of list number at. */
  ghost predicate Going<E>(lists: seq<seq<E>>, at: nat, m: nat, seen: seq<E>) {
    && at <= |lists| && (at < |lists| ==> m <= |lists[at]|)
    && Iteration(lists) == (seen + Visit(lists, at, m).0, Visit(lists, at, m).1)
  }

  lemma VisitStep<E>(lists: seq<seq<E>>, at: nat, m: nat, seen: seq<E>)
    requires Going(lists, at, m, seen) && at < |lists| && m < |lists[at]|
    ensures m + 1 == |lists[at]| ==> Going(lists, at + 1, 0, seen + [lists[at][m]])
    ensures m + 1 < |lists[at]| ==> Going(lists, at, m + 1, seen + [lists[at][m]])
  {
    var rest := if m + 1 == |lists[at]| then Visit(lists, at + 1, 0) else Visit(lists, at, m + 1);
    assert seen + ([lists[at][m]] + rest.0) == seen + [lists[at][m]] + rest.0;
  }

  lemma {:induction false} VisitStays<E>(lists: seq<seq<E>>, at: nat, m: nat)
    requires at <= |lists| && (at < |lists| ==> m < |lists[at]| || m == |lists[at]| == 0)
    ensures Visit(lists, at, m).1 <==> forall i :: at <= i < |lists| ==> |lists[i]| > 0
    decreases |lists| - at, if at < |lists| then |lists[at]| - m else 0
  {
    if at < |lists| && m < |lists[at]| {
      if m + 1 == |lists[at]| { VisitStays(lists, at + 1, 0); } else { VisitStays(lists, at, m + 1); }
    }
  }

  /** What is left at element m of list number at. */
  function Left<E>(lists: seq<seq<E>>, at: nat, m: nat): seq<E>
    requires at <= |lists| && (at < |lists| ==> m <= |lists[at]|)
  {
    if at < |lists| then lists[at][m..] + Concat(lists[at + 1..]) else []
  }

  lemma LeftStep<E>(lists: seq<seq<E>>, at: nat, m: nat)
    requires at < |lists| && m < |lists[at]|
    ensures Left(lists, at, m)
            == [lists[at][m]] + if m + 1 == |lists[at]| then Left(lists, at + 1, 0) else Left(lists, at, m + 1)
  {
    var rest := Concat(lists[at + 1..]);
    assert lists[at][m..] == [lists[at][m]] + lists[at][m + 1..];
    Regroup([lists[at][m]], lists[at][m + 1..], rest);
    if m + 1 == |lists[at]| { LeftList(lists, at + 1); }
  }

  lemma LeftList<E>(lists: seq<seq<E>>, at: nat)
    requires at <= |lists|
    ensures Left(lists, at, 0) == Concat(lists[at..])
  {
    if at < |lists| {
      assert lists[at][0..] == lists[at];
      assert lists[at..][1..] == lists[at + 1..];
    }
  }

  lemma Regroup<E>(a: seq<E>, b: seq<E>, c: seq<E>)
    ensures a + b + c == a + (b + c)
    ensures b == [] ==> b + c == c
  {
  }

  lemma {:induction false} VisitMeaning<E>(lists: seq<seq<E>>, at: nat, m: nat)
    requires at <= |lists| && (at < |lists| ==> m <= |lists[at]|)
    ensures Visit(lists, at, m).1 ==> Visit(lists, at, m).0 == Left(lists, at, m)
    decreases |lists| - at, if at < |lists| then |lists[at]| - m else 0
  {
    if at < |lists| && m < |lists[at]| {
      LeftStep(lists, at, m);
      if m + 1 == |lists[at]| { VisitMeaning(lists, at + 1, 0); } else { VisitMeaning(lists, at, m + 1); }
    }
  }

  /** The iterator stays inside and visits exactly the elements if and only if
      no list is empty. */
  lemma IterationExact<E>(lists: seq<seq<E>>)
    ensures Iteration(lists).1 <==> NoneEmpty(lists)
    ensures Iteration(lists).1 ==> Iteration(lists).0 == Concat(lists)
  {
    VisitStays(lists, 0, 0);
    VisitMeaning(lists, 0, 0);
    if lists != [] { assert lists[0][0..] == lists[0]; }
  }

  /** One empty list is enough to send the iterator past its end. */
  lemma EmptyListBreaks()
    ensures Iteration<int>([[]]) == ([], false) && Concat<int>([[]]) == []
  {
  }

  class Lists<E> {
    var rep: Rep<E>

    constructor ()
      ensures Held() == []
    {
      rep := Empty;
    }

    /** The lists from beginLists to endLists. */
    function Held(): seq<array<E>>
      reads this
    {
      match rep
      case Empty => []
      case Single(list) => [list]
      case Many(lists) => lists
    }

    /** attachLists: the added lists go in front, in their own order. */
    method AttachLists(added: seq<array<E>>)
      modifies this
      ensures Held() == added + old(Held())
      ensures rep.Many? <==> old(rep).Many? || (added != [] && |added| + |old(Held())| > 1)
    {
      if |added| == 0 { return; }
      if rep.Many? {
        var lists := Moved(rep.lists, added);
        rep := Many(lists);
      } else if rep.Empty? && |added| == 1 {
        rep := Single(added[0]);
      } else {
        var lists := Moved(Held(), added);
        rep := Many(lists);
      }
    }

    /** A new array: the old lists moved up from the last one down, then the
        added ones put below them. */
    method Moved(lists: seq<array<E>>, added: seq<array<E>>) returns (moved: seq<array<E>>)
      ensures moved == added + lists
    {
      var n := |lists| + |added|;
      if n == 0 { return []; }
      var any := if |added| > 0 then added[0] else lists[0];
      var a := new array<E>[n](_ => any);
      for i := |lists| downto 0
        invariant forall k :: i <= k < |lists| ==> a[k + |added|] == lists[k]
      {
        a[i + |added|] := lists[i];
      }
      for i := 0 to |added|
        invariant forall k :: 0 <= k < |lists| ==> a[k + |added|] == lists[k]
        invariant forall k :: 0 <= k < i ==> a[k] == added[k]
      {
        a[i] := added[i];
      }
      moved := a[..];
      assert forall k :: |added| <= k < |moved| ==> moved[k] == a[k - |added| + |added|];
    }

    /** Any sequence of calls leaves the batches newest first. */
    method AttachAll(batches: seq<seq<array<E>>>)
      requires Held() == []
      modifies this
      ensures Held() == NewestFirst(batches)
    {
      for i := 0 to |batches|
        invariant Held() == NewestFirst(batches[..i])
      {
        AttachLists(batches[i]);
        assert batches[..i + 1][..i] == batches[..i];
      }
      assert batches[..|batches|] == batches;
    }

    /** count: the number of elements, in 32 bits. */
    method Count() returns (result: nat)
      ensures result == |Concat(Elements(Held()))| % 0x1_0000_0000
    {
      var lists := Held();
      ghost var e := Elements(lists);
      result := 0;
      for i := 0 to |lists|
        invariant result == |Concat(e[..i])| % 0x1_0000_0000
      {
        ConcatAppend(e[..i], e[i]);
        assert e[..i] + [e[i]] == e[..i + 1];
        WrapAdd(|Concat(e[..i])|, lists[i].Length);
        result := (result + lists[i].Length) % 0x1_0000_0000;
      }
      assert e[..|lists|] == e;
    }

    /** A loop over the iterator. */
    method Iterate() returns (seen: seq<E>, ok: bool)
      ensures seen == Iteration(Elements(Held())).0 && ok == Iteration(Elements(Held())).1
    {
      var lists := Held();
      ghost var e := Elements(lists);
      seen, ok := [], true;
      var at, m := 0, 0;
      assert [] + Visit(e, 0, 0).0 == Visit(e, 0, 0).0;
      while at != |lists|
        invariant 0 <= at <= |lists| && (at < |lists| ==> m <= lists[at].Length) && Going(e, at, m, seen)
        decreases |lists| - at, if at < |lists| then lists[at].Length - m else 0
      {
        if m == lists[at].Length { return seen, false; }
        VisitStep(e, at, m, seen);
        seen := seen + [lists[at][m]];
        m := m + 1;
        if m == lists[at].Length { at, m := at + 1, 0; }
      }
    }

    /** duplicateInto: the other array gets copies of the lists, which nothing
        reaches through this one. */
    method DuplicateInto(other: Lists<E>)
      requires other != this
      modifies other
      ensures Elements(other.Held()) == old(Elements(Held()))
      ensures forall i :: 0 <= i < |other.Held()| ==> fresh(other.Held()[i])
      ensures other.rep.Many? <==> old(rep).Many?
    {
      var copies := Copies(Held());
      if rep.Many? {
        other.rep := Many(copies);
      } else if rep.Single? {
        other.rep := Single(copies[0]);
      } else {
        other.rep := Empty;
      }
    }

    /** duplicate() of each list. */
    method Copies(lists: seq<array<E>>) returns (copies: seq<array<E>>)
      ensures |copies| == |lists| && (forall i :: 0 <= i < |copies| ==> fresh(copies[i]))
      ensures Elements(copies) == Elements(lists)
    {
      copies := [];
      for i := 0 to |lists|
        invariant |copies| == i && forall k :: 0 <= k < i ==> fresh(copies[k]) && copies[k][..] == lists[k][..]
      {
        var from := lists[i];
        var copy := new E[from.Length](k requires 0 <= k < from.Length reads from => from[k]);
        assert copy[..] == from[..];
        copies := copies + [copy];
      }
    }

    /** After a duplication, lists added to one of the two and stores into the
        lists of one leave the other as it was. */
    method DuplicateApart(other: Lists<E>, added: seq<array<E>>, i: nat, k: nat, e: E)
      requires other != this
      modifies this, other, Held()
      ensures Elements(other.Held()) == old(Elements(Held()))
      ensures i < |old(Held())| && k < old(Held()[i].Length) ==> old(Held()[i])[k] == e
      ensures Held() == added + old(Held())
    {
      var lists := Held();
      DuplicateThenAttach(other, added);
      if i < |lists| && k < lists[i].Length {
        StoreInto(lists[i], k, e, other.Held());
      }
    }

    method DuplicateThenAttach(other: Lists<E>, added: seq<array<E>>)
      requires other != this
      modifies this, other
      ensures Elements(other.Held()) == old(Elements(Held())) && Held() == added + old(Held())
      ensures forall j :: 0 <= j < |other.Held()| ==> fresh(other.Held()[j])
    {
      DuplicateInto(other);
      AttachLists(added);
    }

    method StoreInto(list: array<E>, k: nat, e: E, ghost others: seq<array<E>>)
      requires k < list.Length && forall j :: 0 <= j < |others| ==> others[j] != list
      modifies list
      ensures list[k] == e && Elements(others) == old(Elements(others))
    {
      list[k] := e;
      assert forall j :: 0 <= j < |others| ==> others[j][..] == old(others[j][..]);
    }
  }
}
