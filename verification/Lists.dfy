/** The array operations used by the derivations: `map`, `filter`, `flatMap` and the set of a list. */
module Lists {
  import opened Wrappers

  function Map<A, B>(f: A -> B, s: seq<A>): (r: seq<B>)
    ensures |r| == |s| && forall i | 0 <= i < |s| :: r[i] == f(s[i])
  {
    seq(|s|, i requires 0 <= i < |s| => f(s[i]))
  }

  function Filter<A(!new)>(p: A -> bool, s: seq<A>): (r: seq<A>)
    ensures forall x :: x in r <==> x in s && p(x)
  {
    if |s| == 0 then [] else
    Filter(p, s[..|s| - 1]) + if p(s[|s| - 1]) then [s[|s| - 1]] else []
  }

  function FlatMap<A, B(!new)>(f: A -> seq<B>, s: seq<A>): (r: seq<B>)
    ensures forall y :: y in r <==> exists i :: 0 <= i < |s| && y in f(s[i])
  {
    if |s| == 0 then [] else
    FlatMap(f, s[..|s| - 1]) + f(s[|s| - 1])
  }

  lemma FilterStep<A(!new)>(p: A -> bool, s: seq<A>, x: A)
    ensures Filter(p, s + [x]) == Filter(p, s) + if p(x) then [x] else []
  {
    assert (s + [x])[..|s|] == s;
  }

  lemma {:induction false} FilterConcat<A(!new)>(p: A -> bool, a: seq<A>, b: seq<A>)
    ensures Filter(p, a + b) == Filter(p, a) + Filter(p, b)
  {
    if |b| == 0 {
      assert a + b == a;
    } else {
      var n := |b| - 1;
      assert a + b == (a + b[..n]) + [b[n]];
      FilterConcat(p, a, b[..n]);
      FilterStep(p, a + b[..n], b[n]);
    }
  }

  /** What passes of a permutation is a permutation of what passes. */
  lemma {:induction false} FilterPermutes<A(!new)>(p: A -> bool, a: seq<A>, b: seq<A>)
    requires multiset(a) == multiset(b)
    ensures multiset(Filter(p, a)) == multiset(Filter(p, b))
    decreases |a|
  {
    hide Filter;
    assert |multiset(a)| == |a| && |multiset(b)| == |b|;
    if |a| > 0 {
      var x := a[0];
      assert a == [x] + a[1..];
      var front, tail := TakeOut(b, x);
      assert multiset(a[1..]) == multiset(a) - multiset{x};
      FilterPermutes(p, a[1..], front + tail);
      FilterConcat(p, [x], a[1..]);
      FilterConcat(p, front + [x], tail);
      FilterConcat(p, front, [x]);
      FilterConcat(p, front, tail);
    } else {
      assert a == b;
    }
  }

  lemma {:induction false} FilterAll<A(!new)>(p: A -> bool, s: seq<A>)
    requires forall x | x in s :: p(x)
    ensures Filter(p, s) == s
  {
    if |s| > 0 {
      assert s == s[..|s| - 1] + [s[|s| - 1]];
      FilterAll(p, s[..|s| - 1]);
    }
  }

  /** The last element that passes. */
  function FindLast<A(!new)>(p: A -> bool, s: seq<A>): (r: Option<A>)
    ensures r.Some? ==> r.value in s && p(r.value)
    ensures r.None? ==> forall x | x in s :: !p(x)
  {
    if |s| == 0 then None else
    if p(s[|s| - 1]) then Some(s[|s| - 1]) else FindLast(p, s[..|s| - 1])
  }

  function SetOf<A>(s: seq<A>): set<A> {
    set x | x in s
  }

  ghost predicate NoRepeat<T>(s: seq<T>) {
    forall i, j | 0 <= i < j < |s| :: s[i] != s[j]
  }

  lemma NoRepeatStep<T>(s: seq<T>, x: T)
    ensures NoRepeat(s + [x]) <==> NoRepeat(s) && x !in s
  {
    var all := s + [x];
    assert forall i | 0 <= i < |s| :: all[i] == s[i];
    assert all[|s|] == x;
  }

  lemma MapInsert<A, B>(f: A -> B, front: seq<A>, x: A, tail: seq<A>)
    ensures multiset(Map(f, front + [x] + tail)) == multiset{f(x)} + multiset(Map(f, front + tail))
  {
    assert Map(f, front + [x] + tail) == Map(f, front) + [f(x)] + Map(f, tail);
    assert Map(f, front + tail) == Map(f, front) + Map(f, tail);
  }

  lemma TakeOut<A>(s: seq<A>, x: A) returns (front: seq<A>, tail: seq<A>)
    requires x in multiset(s)
    ensures s == front + [x] + tail && multiset(front + tail) == multiset(s) - multiset{x}
  {
    var j :| 0 <= j < |s| && s[j] == x;
    front, tail := s[..j], s[j + 1..];
    assert s == front + [x] + tail;
  }

  /** The image of a permutation is a permutation of the image. */
  lemma {:induction false} MapPermutes<A, B>(f: A -> B, a: seq<A>, b: seq<A>)
    requires multiset(a) == multiset(b)
    ensures multiset(Map(f, a)) == multiset(Map(f, b))
    decreases |a|
  {
    hide Map;
    assert |multiset(a)| == |a| && |multiset(b)| == |b|;
    if |a| > 0 {
      var x := a[0];
      assert a == [] + [x] + a[1..] && [] + a[1..] == a[1..];
      var front, tail := TakeOut(b, x);
      MapPermutes(f, a[1..], front + tail);
      MapInsert(f, [], x, a[1..]);
      MapInsert(f, front, x, tail);
    }
  }

  lemma {:induction false} OnceIfDistinct<T>(s: seq<T>, x: T)
    requires NoRepeat(s)
    ensures multiset(s)[x] <= 1
  {
    if |s| > 0 {
      var front, last := s[..|s| - 1], s[|s| - 1];
      assert s == front + [last];
      OnceIfDistinct(front, x);
      if x == last {
        assert x !in multiset(front) by { assert x !in front; }
      }
    }
  }

  lemma TwiceIfRepeated<T>(s: seq<T>, i: nat, j: nat)
    requires i < j < |s| && s[i] == s[j]
    ensures multiset(s)[s[i]] >= 2
  {
    assert s == s[..j] + s[j..];
    assert s[..j][i] == s[i] && s[j..][0] == s[i];
    assert s[i] in multiset(s[..j]) && s[i] in multiset(s[j..]);
  }

  /** A permutation of a list without repetition has none. */
  lemma NoRepeatPermutes<T>(a: seq<T>, b: seq<T>)
    requires multiset(a) == multiset(b) && NoRepeat(a)
    ensures NoRepeat(b)
  {
    forall i, j | 0 <= i < j < |b|
      ensures b[i] != b[j]
    {
      OnceIfDistinct(a, b[i]);
      if b[i] == b[j] { TwiceIfRepeated(b, i, j); }
    }
  }

  /** Neither has the list of its keys, if the keys had none. */
  lemma KeysStayDistinct<T, K>(key: T -> K, a: seq<T>, b: seq<T>)
    requires multiset(a) == multiset(b) && NoRepeat(Map(key, a))
    ensures NoRepeat(Map(key, b))
  {
    MapPermutes(key, a, b);
    NoRepeatPermutes(Map(key, a), Map(key, b));
  }

  lemma {:induction false} FlatMapConcat<A, B(!new)>(f: A -> seq<B>, a: seq<A>, b: seq<A>)
    ensures FlatMap(f, a + b) == FlatMap(f, a) + FlatMap(f, b)
  {
    if |b| == 0 {
      assert a + b == a;
    } else {
      assert (a + b)[..|a + b| - 1] == a + b[..|b| - 1];
      FlatMapConcat(f, a, b[..|b| - 1]);
    }
  }

  lemma FlatMapOne<A, B(!new)>(f: A -> seq<B>, x: A)
    ensures FlatMap(f, [x]) == f(x)
  {
    assert [x][..0] == [];
  }

  /** And so is what the elements are flattened to. */
  lemma {:induction false} FlatMapPermutes<A, B(!new)>(f: A -> seq<B>, a: seq<A>, b: seq<A>)
    requires multiset(a) == multiset(b)
    ensures multiset(FlatMap(f, a)) == multiset(FlatMap(f, b))
    decreases |a|
  {
    hide FlatMap;
    assert |multiset(a)| == |a| && |multiset(b)| == |b|;
    if |a| > 0 {
      var x := a[0];
      assert a == [x] + a[1..];
      var front, tail := TakeOut(b, x);
      assert multiset(a[1..]) == multiset(a) - multiset{x};
      FlatMapPermutes(f, a[1..], front + tail);
      FlatMapConcat(f, [x], a[1..]);
      FlatMapConcat(f, front + [x], tail);
      FlatMapConcat(f, front, [x]);
      FlatMapConcat(f, front, tail);
      FlatMapOne(f, x);
    } else {
      assert a == b;
    }
  }
}
