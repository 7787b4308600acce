/** The stable sort of the standard library, and why its result is independent of the input order. */
module Sorting {
  import opened Text

  ghost predicate IsOrder<T(!new)>(le: (T, T) -> bool) {
    && (forall x, y :: le(x, y) || le(y, x))
    && (forall x, y, z :: le(x, y) && le(y, z) ==> le(x, z))
  }

  function Insert<T>(x: T, s: seq<T>, le: (T, T) -> bool): seq<T> {
    if |s| == 0 || le(x, s[0]) then [x] + s else [s[0]] + Insert(x, s[1..], le)
  }

  function Sort<T>(s: seq<T>, le: (T, T) -> bool): seq<T> {
    if |s| == 0 then [] else Insert(s[0], Sort(s[1..], le), le)
  }

  ghost predicate Sorted<T>(s: seq<T>, le: (T, T) -> bool) {
    forall i, j | 0 <= i < j < |s| :: le(s[i], s[j])
  }

  lemma {:induction false} InsertPermutes<T>(x: T, s: seq<T>, le: (T, T) -> bool)
    ensures multiset(Insert(x, s, le)) == multiset{x} + multiset(s)
  {
    if |s| != 0 {
      assert s == [s[0]] + s[1..];
      if !le(x, s[0]) {
        InsertPermutes(x, s[1..], le);
      }
    }
  }

  lemma {:induction false} SortPermutes<T>(s: seq<T>, le: (T, T) -> bool)
    ensures multiset(Sort(s, le)) == multiset(s)
    ensures |Sort(s, le)| == |s|
  {
    if |s| != 0 {
      SortPermutes(s[1..], le);
      InsertPermutes(s[0], Sort(s[1..], le), le);
      assert s == [s[0]] + s[1..];
    }
    assert |multiset(Sort(s, le))| == |Sort(s, le)|;
  }

  lemma SameElements<T>(a: seq<T>, b: seq<T>)
    requires multiset(a) == multiset(b)
    ensures forall x :: x in a <==> x in b
  {
    forall x
      ensures x in a <==> x in b
    {
      assert x in multiset(a) <==> x in a;
      assert x in multiset(b) <==> x in b;
    }
  }

  lemma {:induction false} InsertSorts<T(!new)>(x: T, s: seq<T>, le: (T, T) -> bool)
    requires IsOrder(le) && Sorted(s, le)
    ensures Sorted(Insert(x, s, le), le)
  {
    if |s| != 0 && !le(x, s[0]) {
      InsertSorts(x, s[1..], le);
      InsertPermutes(x, s[1..], le);
      var tail := Insert(x, s[1..], le);
      assert multiset(tail) == multiset([x] + s[1..]);
      SameElements(tail, [x] + s[1..]);
      forall j | 0 <= j < |tail|
        ensures le(s[0], tail[j])
      {
        assert tail[j] in [x] + s[1..];
      }
    }
  }

  lemma {:induction false} SortSorts<T(!new)>(s: seq<T>, le: (T, T) -> bool)
    requires IsOrder(le)
    ensures Sorted(Sort(s, le), le)
  {
    if |s| != 0 {
      SortSorts(s[1..], le);
      InsertSorts(s[0], Sort(s[1..], le), le);
    }
  }

  /** Sorting again, or sorting what is already in order, changes nothing. */
  lemma {:induction false} SortOfSorted<T(!new)>(s: seq<T>, le: (T, T) -> bool)
    requires Sorted(s, le)
    ensures Sort(s, le) == s
  {
    if |s| != 0 {
      assert Sorted(s[1..], le);
      SortOfSorted(s[1..], le);
    }
  }

  /** `le` tells any two distinct elements of `s` apart. */
  ghost predicate Separates<T>(s: seq<T>, le: (T, T) -> bool) {
    forall x, y | x in s && y in s && le(x, y) && le(y, x) :: x == y
  }

  lemma SameHead<T(!new)>(a: seq<T>, b: seq<T>, le: (T, T) -> bool)
    requires Separates(a, le) && |a| > 0 && |b| > 0
    requires Sorted(a, le) && Sorted(b, le) && (forall x :: le(x, x)) && forall x :: x in a <==> x in b
    ensures a[0] == b[0]
  {
    assert a[0] in b && b[0] in a;
    var i :| 0 <= i < |b| && b[i] == a[0];
    var j :| 0 <= j < |a| && a[j] == b[0];
    assert le(a[0], b[0]) && le(b[0], a[0]);
  }

  lemma {:induction false} SortedPermutationsAgree<T(!new)>(a: seq<T>, b: seq<T>, le: (T, T) -> bool)
    requires IsOrder(le) && Separates(a, le)
    requires Sorted(a, le) && Sorted(b, le) && multiset(a) == multiset(b)
    ensures a == b
  {
    assert |multiset(a)| == |a| && |multiset(b)| == |b|;
    if |a| != 0 {
      SameElements(a, b);
      SameHead(a, b, le);
      assert a == [a[0]] + a[1..] && b == [b[0]] + b[1..];
      assert multiset(a[1..]) == multiset(a) - multiset{a[0]};
      assert multiset(b[1..]) == multiset(b) - multiset{b[0]};
      SortedPermutationsAgree(a[1..], b[1..], le);
    }
  }

  /** Sorting keeps the elements. */
  lemma SortLists<T>(s: seq<T>, le: (T, T) -> bool)
    ensures |Sort(s, le)| == |s| && forall x :: x in Sort(s, le) <==> x in s
  {
    SortPermutes(s, le);
    SameElements(Sort(s, le), s);
  }

  /** The sort forgets the order of its input whenever the comparison tells the elements apart. */
  lemma SortForgetsOrder<T(!new)>(a: seq<T>, b: seq<T>, le: (T, T) -> bool)
    requires IsOrder(le) && Separates(a, le) && multiset(a) == multiset(b)
    ensures Sort(a, le) == Sort(b, le)
  {
    SortPermutes(a, le);
    SortPermutes(b, le);
    SortSorts(a, le);
    SortSorts(b, le);
    SameElements(Sort(a, le), a);
    SortedPermutationsAgree(Sort(a, le), Sort(b, le), le);
  }

  /** An element is inserted before everything it ties with. */
  lemma {:induction false} InsertedFirst<T>(x: T, s: seq<T>, le: (T, T) -> bool) returns (k: nat)
    ensures k < |Insert(x, s, le)| && Insert(x, s, le)[k] == x && forall i | 0 <= i < k :: !le(x, Insert(x, s, le)[i])
  {
    if |s| == 0 || le(x, s[0]) {
      k := 0;
    } else {
      k := InsertedFirst(x, s[1..], le);
      k := k + 1;
    }
  }

  /** Of elements that tie, the first stays first: the sort shows which came first. */
  lemma FirstOfTies<T>(x: T, a: seq<T>, y: T, b: seq<T>, le: (T, T) -> bool)
    requires le(x, y) && le(y, x) && Sort([x] + a, le) == Sort([y] + b, le)
    ensures x == y
  {
    assert ([x] + a)[1..] == a && ([y] + b)[1..] == b;
    var i := InsertedFirst(x, Sort(a, le), le);
    var j := InsertedFirst(y, Sort(b, le), le);
  }

  lemma TextIsOrder()
    ensures IsOrder(AtMost)
    ensures forall s: seq<string> :: Separates(s, AtMost)
  {
    forall x, y
      ensures AtMost(x, y) || AtMost(y, x)
      ensures AtMost(x, y) && AtMost(y, x) ==> x == y
    {
      AtMostTotal(x, y);
      if AtMost(x, y) && AtMost(y, x) {
        AtMostAntisymmetric(x, y);
      }
    }
    forall x, y, z | AtMost(x, y) && AtMost(y, z)
      ensures AtMost(x, z)
    {
      AtMostTransitive(x, y, z);
    }
  }

  lemma {:induction false} LeastExists(keys: set<string>) returns (least: string)
    requires keys != {}
    ensures least in keys && forall o | o in keys :: AtMost(least, o)
  {
    least :| least in keys;
    AtMostTotal(least, least);
    if keys != {least} {
      var m := LeastExists(keys - {least});
      AtMostTotal(least, m);
      if AtMost(least, m) {
        forall o | o in keys - {least} ensures AtMost(least, o) { AtMostTransitive(least, m, o); }
      } else {
        least := m;
      }
    }
  }

  function Least(keys: set<string>): (k: string)
    requires keys != {}
    ensures k in keys && forall o | o in keys :: AtMost(k, o)
  {
    assert exists k | k in keys :: forall o | o in keys :: AtMost(k, o) by {
      var least := LeastExists(keys);
    }
    assert forall a, b | a in keys && b in keys && AtMost(a, b) && AtMost(b, a) :: a == b by {
      forall a, b | a in keys && b in keys && AtMost(a, b) && AtMost(b, a) ensures a == b { AtMostAntisymmetric(a, b); }
    }
    var k :| k in keys && forall o | o in keys :: AtMost(k, o);
    k
  }

  /** `Object.keys(record).sort()`: the keys in text order. */
  function SortedKeys(keys: set<string>): (s: seq<string>)
    ensures forall k :: k in s <==> k in keys
    ensures |s| == |keys|
    ensures forall i, j | 0 <= i < j < |s| :: s[i] != s[j]
    ensures Sorted(s, AtMost)
  {
    if keys == {} then [] else
    var k := Least(keys);
    [k] + SortedKeys(keys - {k})
  }

  lemma TextSortForgetsOrder(a: seq<string>, b: seq<string>)
    requires multiset(a) == multiset(b)
    ensures Sort(a, AtMost) == Sort(b, AtMost)
  {
    TextIsOrder();
    assert Separates(a, AtMost);
    SortForgetsOrder(a, b, AtMost);
  }

  /** Whatever order the members were inserted in, sorting the keys gives the same list. */
  lemma KeyOrderIsIrrelevant(enumeration: seq<string>, keys: set<string>)
    requires multiset(enumeration) == multiset(keys)
    ensures Sort(enumeration, AtMost) == SortedKeys(keys)
  {
    var s := SortedKeys(keys);
    NoRepeats(s, keys);
    SortOfSorted(s, AtMost);
    TextSortForgetsOrder(enumeration, s);
  }

  lemma {:induction false} NoRepeats<T>(s: seq<T>, keys: set<T>)
    requires forall k :: k in s <==> k in keys
    requires forall i, j | 0 <= i < j < |s| :: s[i] != s[j]
    ensures multiset(s) == multiset(keys)
  {
    if |s| != 0 {
      assert s == [s[0]] + s[1..];
      NoRepeats(s[1..], keys - {s[0]});
      assert multiset(keys) == multiset{s[0]} + multiset(keys - {s[0]});
    }
  }
}
