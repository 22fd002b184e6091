/** Small vocabulary shared by the models. */
module Common {

  datatype Option<+T> = None | Some(value: T)

  function Later(a: nat, b: nat): nat {
    if a < b then b else a
  }

  /** The results of `f` on each element of `s`, one after the other. */
  function FlatMap<A, B>(f: A -> seq<B>, s: seq<A>): seq<B> {
    if s == [] then [] else f(s[0]) + FlatMap(f, s[1..])
  }

  lemma TakeDrop<T>(s: seq<T>, n: nat)
    requires n <= |s|
    ensures s == s[..n] + s[n..]
  {
  }

  lemma ConcatAssociative<T>(a: seq<T>, b: seq<T>, c: seq<T>)
    ensures (a + b) + c == a + (b + c)
  {
  }

  lemma FlatMapCons<A, B>(f: A -> seq<B>, x: A, s: seq<A>)
    ensures FlatMap(f, [x] + s) == f(x) + FlatMap(f, s)
  {
    assert ([x] + s)[1..] == s;
  }

  lemma {:induction false} FlatMapConcat<A, B>(f: A -> seq<B>, a: seq<A>, b: seq<A>)
    ensures FlatMap(f, a + b) == FlatMap(f, a) + FlatMap(f, b)
  {
    if a == [] {
      assert a + b == b;
    } else {
      var x, rest := a[0], a[1..];
      FlatMapConcat(f, rest, b);
      FlatMapCons(f, x, rest + b);
      ConcatAssociative([x], rest, b);
      assert [x] + rest == a;
      ConcatAssociative(f(x), FlatMap(f, rest), FlatMap(f, b));
    }
  }

  lemma FlatMapSnoc<A, B>(f: A -> seq<B>, a: seq<A>, x: A)
    ensures FlatMap(f, a + [x]) == FlatMap(f, a) + f(x)
  {
    FlatMapConcat(f, a, [x]);
    assert FlatMap(f, [x]) == f(x) + FlatMap(f, []);
  }

  /** The results around position `t`. */
  lemma FlatMapAt<A, B>(f: A -> seq<B>, s: seq<A>, t: nat)
    requires t < |s|
    ensures FlatMap(f, s) == FlatMap(f, s[..t]) + (f(s[t]) + FlatMap(f, s[t + 1..]))
  {
    TakeDrop(s, t);
    FlatMapConcat(f, s[..t], s[t..]);
    assert s[t..][1..] == s[t + 1..];
  }

  lemma {:induction false} FlatMapNothing<A, B>(f: A -> seq<B>, s: seq<A>)
    requires forall i :: 0 <= i < |s| ==> f(s[i]) == []
    ensures FlatMap(f, s) == []
  {
    if s != [] {
      FlatMapNothing(f, s[1..]);
    }
  }

  lemma {:induction false} FlatMapSame<A, B>(f: A -> seq<B>, s: seq<A>, s': seq<A>)
    requires |s| == |s'| && forall i :: 0 <= i < |s| ==> f(s[i]) == f(s'[i])
    ensures FlatMap(f, s) == FlatMap(f, s')
  {
    if s != [] {
      FlatMapSame(f, s[1..], s'[1..]);
    }
  }

  lemma NothingExtra<T>(a: seq<T>, b: seq<T>, extra: seq<T>)
    requires multiset(a) == multiset(b) + multiset(extra)
    ensures a == b ==> extra == []
  {
    if extra != [] {
      MoreIsDifferent(a, b, extra);
    }
  }

  lemma MoreIsDifferent<T>(a: seq<T>, b: seq<T>, extra: seq<T>)
    requires extra != [] && multiset(a) == multiset(b) + multiset(extra)
    ensures a != b
  {
    var x := extra[0];
    assert multiset(extra)[x] > 0;
    assert multiset(a)[x] == multiset(b)[x] + multiset(extra)[x];
  }

  lemma EqualHeads<T>(a: seq<T>, b: seq<T>, a': seq<T>, b': seq<T>)
    requires |a| >= |a'| && |b| >= |b'|
    ensures a + b == a' + b' <==> a == a' && b == b'
  {
    if a + b == a' + b' {
      assert |a| == |a'|;
      assert a == (a + b)[..|a|] && b == (a + b)[|a|..];
      assert a' == (a' + b')[..|a|] && b' == (a' + b')[|a|..];
    }
  }
}
