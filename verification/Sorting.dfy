/** Sorting by a total order, and why the result does not depend on the order of the input. */
module Sorting {

  ghost predicate Orders<T(!new)>(before: (T, T) -> bool) {
    && (forall a, b :: before(a, b) || before(b, a))
    && (forall a, b, c :: before(a, b) && before(b, c) ==> before(a, c))
  }

  /** On the elements of s, no two different ones tie. */
  ghost predicate NoTies<T>(s: seq<T>, before: (T, T) -> bool) {
    forall a, b | a in s && b in s && before(a, b) && before(b, a) :: a == b
  }

  ghost predicate Ordered<T>(s: seq<T>, before: (T, T) -> bool) {
    forall i, j | 0 <= i < j < |s| :: before(s[i], s[j])
  }

  function Insert<T>(x: T, s: seq<T>, before: (T, T) -> bool): seq<T> {
    if s == [] || before(x, s[0]) then [x] + s else [s[0]] + Insert(x, s[1..], before)
  }

  function Sort<T>(s: seq<T>, before: (T, T) -> bool): seq<T> {
    if s == [] then [] else Insert(s[0], Sort(s[1..], before), before)
  }

  lemma {:induction false} InsertKeeps<T>(x: T, s: seq<T>, before: (T, T) -> bool)
    ensures multiset(Insert(x, s, before)) == multiset{x} + multiset(s)
  {
    if s != [] && !before(x, s[0]) {
      InsertKeeps(x, s[1..], before);
      assert s == [s[0]] + s[1..];
    }
  }

  lemma {:induction false} InsertOrders<T(!new)>(x: T, s: seq<T>, before: (T, T) -> bool)
    requires Orders(before) && Ordered(s, before)
    ensures Ordered(Insert(x, s, before), before)
  {
    if s != [] && !before(x, s[0]) {
      InsertOrders(x, s[1..], before);
      InsertKeeps(x, s[1..], before);
      var rest := Insert(x, s[1..], before);
      forall j | 0 <= j < |rest|
        ensures before(s[0], rest[j])
      {
        assert rest[j] in multiset(rest);
        assert rest[j] == x || rest[j] in s[1..];
      }
    } else if s != [] {
      forall j | 0 <= j < |s|
        ensures before(x, s[j])
      {
        assert j > 0 ==> before(s[0], s[j]);
      }
    }
  }

  /** Sort is a sort: ordered, and a permutation of its input. */
  lemma {:induction false} SortSorts<T(!new)>(s: seq<T>, before: (T, T) -> bool)
    requires Orders(before)
    ensures Ordered(Sort(s, before), before)
    ensures multiset(Sort(s, before)) == multiset(s)
    ensures |Sort(s, before)| == |s|
    ensures forall x :: x in Sort(s, before) <==> x in s
  {
    if s != [] {
      SortSorts(s[1..], before);
      InsertOrders(s[0], Sort(s[1..], before), before);
      InsertKeeps(s[0], Sort(s[1..], before), before);
      assert s == [s[0]] + s[1..];
    }
    assert |Sort(s, before)| == |multiset(Sort(s, before))|;
    forall x
      ensures x in Sort(s, before) <==> x in s
    {
      assert x in s <==> x in multiset(s);
      assert x in Sort(s, before) <==> x in multiset(Sort(s, before));
    }
  }

  lemma HeadsAgree<T>(a: seq<T>, b: seq<T>, before: (T, T) -> bool)
    requires Ordered(a, before) && Ordered(b, before) && NoTies(a, before)
    requires a != [] && b != [] && b[0] in a && a[0] in b
    ensures a[0] == b[0]
  {
    var i :| 0 <= i < |a| && a[i] == b[0];
    var j :| 0 <= j < |b| && b[j] == a[0];
    if i > 0 && j > 0 {
      assert before(a[0], a[i]) && before(b[0], b[j]);
    }
  }

  lemma TailOf<T>(s: seq<T>)
    requires s != []
    ensures multiset(s[1..]) == multiset(s) - multiset{s[0]}
  {
    assert s == [s[0]] + s[1..];
  }

  lemma SameElements<T>(a: seq<T>, b: seq<T>)
    requires multiset(a) == multiset(b)
    ensures |a| == |b| && forall x | x in b :: x in a
  {
    assert |a| == |multiset(a)| && |b| == |multiset(b)|;
    forall x | x in b
      ensures x in a
    {
      assert x in multiset(b);
    }
  }

  lemma TailsAgree<T>(a: seq<T>, b: seq<T>, before: (T, T) -> bool)
    requires a != [] && b != [] && a[0] == b[0] && multiset(a) == multiset(b)
    requires Ordered(a, before) && Ordered(b, before) && NoTies(a, before)
    ensures multiset(a[1..]) == multiset(b[1..])
    ensures Ordered(a[1..], before) && Ordered(b[1..], before) && NoTies(a[1..], before)
  {
    TailOf(a);
    TailOf(b);
    assert forall x | x in a[1..] :: x in a;
  }

  /** Two ordered lists with the same elements are the same list. */
  lemma {:induction false} OrderedIsUnique<T>(a: seq<T>, b: seq<T>, before: (T, T) -> bool)
    requires Ordered(a, before) && Ordered(b, before)
    requires multiset(a) == multiset(b) && NoTies(a, before)
    ensures a == b
    decreases |a|
  {
    SameElements(a, b);
    if a != [] {
      SameElements(b, a);
      HeadsAgree(a, b, before);
      TailsAgree(a, b, before);
      OrderedIsUnique(a[1..], b[1..], before);
      assert a == [a[0]] + a[1..] && b == [b[0]] + b[1..];
    }
  }

  lemma SortForgetsOrder<T(!new)>(a: seq<T>, b: seq<T>, before: (T, T) -> bool)
    requires Orders(before) && multiset(a) == multiset(b) && NoTies(a, before)
    ensures Sort(a, before) == Sort(b, before)
  {
    SortSorts(a, before);
    SortSorts(b, before);
    OrderedIsUnique(Sort(a, before), Sort(b, before), before);
  }

  /** Distinct elements drawn from s are at most |s| many. */
  lemma {:induction false} NoMoreThan<T>(a: seq<T>, s: seq<T>)
    requires forall i, j | 0 <= i < j < |a| :: a[i] != a[j]
    requires forall x | x in a :: x in s
    ensures |a| <= |s|
    decreases |a|
  {
    if a != [] {
      assert a[0] in a;
      var k :| 0 <= k < |s| && s[k] == a[0];
      var rest := s[..k] + s[k + 1..];
      forall x | x in a[1..]
        ensures x in rest
      {
        var i :| 0 <= i < |a[1..]| && a[1..][i] == x;
        assert x == a[i + 1] && x != a[0] && x in a;
        var j :| 0 <= j < |s| && s[j] == x;
        assert x == rest[if j < k then j else j - 1];
      }
      NoMoreThan(a[1..], rest);
    }
  }
}
