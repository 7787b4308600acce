/** Walks and reachability along a successor relation. */
module Graphs {
  ghost predicate IsWalk<T(!new)>(succ: T -> set<T>, w: seq<T>) {
    |w| > 0 && forall i | 0 <= i < |w| - 1 :: w[i + 1] in succ(w[i])
  }

  ghost predicate Reaches<T(!new)>(succ: T -> set<T>, a: T, b: T) {
    exists w :: IsWalk(succ, w) && w[0] == a && w[|w| - 1] == b
  }

  /** A walk of at least one edge that comes back to where it started. */
  ghost predicate IsClosedWalk<T(!new)>(succ: T -> set<T>, w: seq<T>) {
    IsWalk(succ, w) && |w| > 1 && w[0] == w[|w| - 1]
  }

  ghost predicate Acyclic<T(!new)>(succ: T -> set<T>) {
    forall w :: !IsClosedWalk(succ, w)
  }

  lemma ReachesSelf<T(!new)>(succ: T -> set<T>, a: T)
    ensures Reaches(succ, a, a)
  {
    assert IsWalk(succ, [a]) && [a][0] == a && [a][|[a]| - 1] == a;
  }

  lemma ReachesNext<T(!new)>(succ: T -> set<T>, a: T, b: T, c: T)
    requires Reaches(succ, a, b) && c in succ(b)
    ensures Reaches(succ, a, c)
  {
    var w :| IsWalk(succ, w) && w[0] == a && w[|w| - 1] == b;
    var u := w + [c];
    assert IsWalk(succ, u) && u[0] == a && u[|u| - 1] == c;
  }

  lemma {:induction false} WalkStays<T(!new)>(succ: T -> set<T>, within: set<T>, w: seq<T>)
    requires IsWalk(succ, w) && w[0] in within
    requires forall x | x in within :: succ(x) <= within
    ensures w[|w| - 1] in within
  {
    if |w| > 1 {
      assert w[1] in succ(w[0]);
      WalkStays(succ, within, w[1..]);
    }
  }

  /** A set closed under successors holds everything its members reach. */
  lemma ReachesStays<T(!new)>(succ: T -> set<T>, within: set<T>, a: T, b: T)
    requires a in within && Reaches(succ, a, b)
    requires forall x | x in within :: succ(x) <= within
    ensures b in within
  {
    var w :| IsWalk(succ, w) && w[0] == a && w[|w| - 1] == b;
    WalkStays(succ, within, w);
  }

  lemma {:induction false} WalkAgrees<T(!new)>(succ: T -> set<T>, other: T -> set<T>, w: seq<T>)
    requires IsWalk(succ, w)
    requires forall x | Reaches(succ, w[0], x) :: succ(x) == other(x)
    ensures IsWalk(other, w)
  {
    forall i | 0 <= i < |w| - 1
      ensures w[i + 1] in other(w[i])
    {
      var u := w[..i + 1];
      assert IsWalk(succ, u) && u[0] == w[0] && u[|u| - 1] == w[i];
      assert Reaches(succ, w[0], w[i]);
    }
  }

  /** Relations that agree on what is reached reach the same. */
  lemma ReachesAgrees<T(!new)>(succ: T -> set<T>, other: T -> set<T>, a: T, b: T)
    requires forall x | Reaches(succ, a, x) :: succ(x) == other(x)
    requires Reaches(succ, a, b)
    ensures Reaches(other, a, b)
  {
    var w :| IsWalk(succ, w) && w[0] == a && w[|w| - 1] == b;
    WalkAgrees(succ, other, w);
  }

  function FirstIndex<T(==)>(s: seq<T>, x: T): (i: nat)
    requires x in s
    ensures i < |s| && s[i] == x && x !in s[..i]
  {
    if s[0] == x then 0 else
    var i := 1 + FirstIndex(s[1..], x);
    assert s[..i] == [s[0]] + s[1..][..i - 1];
    i
  }

  lemma {:induction false} FirstIndexIsLeast<T>(s: seq<T>, x: T, n: nat)
    requires n <= |s| && x in s[..n]
    ensures x in s && FirstIndex(s, x) < n
  {
    if s[0] != x {
      assert s[..n] == [s[0]] + s[1..][..n - 1];
      FirstIndexIsLeast(s[1..], x, n - 1);
    }
  }

  /** Every element comes after all its successors. */
  ghost predicate SuccessorsFirst<T(!new)>(succ: T -> set<T>, order: seq<T>) {
    forall i | 0 <= i < |order| :: forall x | x in succ(order[i]) :: x in order[..i]
  }

  lemma {:induction false} WalkDescends<T(!new)>(succ: T -> set<T>, order: seq<T>, w: seq<T>)
    requires SuccessorsFirst(succ, order) && IsWalk(succ, w) && w[0] in order
    ensures w[|w| - 1] in order && FirstIndex(order, w[|w| - 1]) + |w| - 1 <= FirstIndex(order, w[0])
  {
    if |w| > 1 {
      var i := FirstIndex(order, w[0]);
      assert w[1] in succ(order[i]);
      assert w[1] in order[..i];
      FirstIndexIsLeast(order, w[1], i);
      WalkDescends(succ, order, w[1..]);
    }
  }

  /** An order that lists successors first leaves no room for a closed walk. */
  lemma OrderedIsAcyclic<T(!new)>(succ: T -> set<T>, order: seq<T>)
    requires SuccessorsFirst(succ, order)
    requires forall x | x !in order :: succ(x) == {}
    ensures Acyclic(succ)
  {
    forall w | IsClosedWalk(succ, w)
      ensures false
    {
      assert w[1] in succ(w[0]);
      WalkDescends(succ, order, w);
    }
  }
}
