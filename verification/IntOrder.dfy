/** Finite sets of integers listed in decreasing order. */
module IntOrder {

  lemma EmptyIff(s: set<int>)
    ensures s == {} <==> forall y :: y !in s
  {
    if forall y :: y !in s {
      assert s == {};
    }
  }

  lemma NonEmpty(s: set<int>)
    requires s != {}
    ensures exists y :: y in s
  {
    EmptyIff(s);
  }

  predicate IsMax(s: set<int>, m: int) {
    m in s && forall x :: x in s ==> x <= m
  }

  lemma {:induction false} MaxExists(s: set<int>)
    requires s != {}
    ensures exists m :: IsMax(s, m)
    decreases |s|
  {
    NonEmpty(s);
    var y :| y in s;
    var rest := s - {y};
    if rest == {} {
      OnlyMax(s, y);
    } else {
      MaxExists(rest);
      var m :| IsMax(rest, m);
      LargerMax(s, y, m);
    }
  }

  lemma OnlyMax(s: set<int>, y: int)
    requires y in s && s - {y} == {}
    ensures IsMax(s, y)
  {
    forall x | x in s
      ensures x <= y
    {
      assert x == y || x in s - {y};
    }
  }

  lemma LargerMax(s: set<int>, y: int, m: int)
    requires y in s && IsMax(s - {y}, m)
    ensures IsMax(s, if y > m then y else m)
  {
    forall x | x in s
      ensures x <= if y > m then y else m
    {
      assert x == y || x in s - {y};
    }
  }

  function Max(s: set<int>): (m: int)
    requires s != {}
    ensures IsMax(s, m)
  {
    MaxExists(s);
    var m :| IsMax(s, m);
    m
  }

  ghost predicate Decreasing(ids: seq<int>) {
    forall i, j :: 0 <= i < j < |ids| ==> ids[i] > ids[j]
  }

  /** The elements of a set, largest first. */
  function Descending(s: set<int>): (ids: seq<int>)
    ensures Decreasing(ids)
    ensures forall x :: x in s ==> x in ids
    ensures forall i :: 0 <= i < |ids| ==> ids[i] in s
    decreases |s|
  {
    if s == {} then [] else [Max(s)] + Descending(s - {Max(s)})
  }

  /** Ids in decreasing order are determined by which ids they are. */
  lemma {:induction false} DecreasingUnique(a: seq<int>, b: seq<int>)
    requires Decreasing(a) && Decreasing(b)
    requires forall x :: x in a <==> x in b
    ensures a == b
    decreases |a|
  {
    assert a != [] ==> a[0] in a && a[0] in b;
    assert b != [] ==> b[0] in b && b[0] in a;
    if a != [] {
      assert forall x :: x in a <==> x == a[0] || x in a[1..];
      assert forall x :: x in b <==> x == b[0] || x in b[1..];
      DecreasingUnique(a[1..], b[1..]);
    }
  }

  function IdsBelow(s: set<int>, bound: int): set<int> {
    set x | x in s && x < bound
  }

  /** `ids` lists the elements of `s`, largest first. */
  ghost predicate Lists(ids: seq<int>, s: set<int>) {
    && Decreasing(ids)
    && (forall x :: x in s ==> x in ids)
    && (forall i :: 0 <= i < |ids| ==> ids[i] in s)
  }

  /** What follows the first n elements are the elements below the n-th one. */
  lemma TailListsBelow(ids: seq<int>, s: set<int>, n: nat)
    requires Lists(ids, s) && 1 <= n < |ids|
    ensures Lists(ids[n..], IdsBelow(s, ids[n - 1]))
  {
  }

  lemma ListsUnique(a: seq<int>, b: seq<int>, s: set<int>)
    requires Lists(a, s) && Lists(b, s)
    ensures a == b
  {
    forall x
      ensures x in a <==> x in b
    {
      assert x in a ==> x in s;
      assert x in b ==> x in s;
    }
    DecreasingUnique(a, b);
  }

  lemma DescendingTail(s: set<int>, n: nat)
    requires 1 <= n < |Descending(s)|
    ensures Descending(s)[n..] == Descending(IdsBelow(s, Descending(s)[n - 1]))
  {
    var below := IdsBelow(s, Descending(s)[n - 1]);
    TailListsBelow(Descending(s), s, n);
    ListsUnique(Descending(s)[n..], Descending(below), below);
  }
}
