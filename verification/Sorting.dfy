/** Sorting as the standard library promises it: a sorted rearrangement. */
module Sorting {

  ghost predicate TotalPreorder<T(!new)>(leq: (T, T) -> bool)
  {
    && (forall a, b :: leq(a, b) || leq(b, a))
    && (forall a, b, c :: leq(a, b) && leq(b, c) ==> leq(a, c))
  }

  ghost predicate Antisymmetric<T(!new)>(leq: (T, T) -> bool)
  {
    forall a, b :: leq(a, b) && leq(b, a) ==> a == b
  }

  predicate SortedBy<T>(s: seq<T>, leq: (T, T) -> bool)
  {
    forall i, j | 0 <= i < j < |s| :: leq(s[i], s[j])
  }

  function Insert<T>(s: seq<T>, x: T, leq: (T, T) -> bool): (r: seq<T>)
  {
    if s == [] || leq(x, s[0]) then [x] + s else [s[0]] + Insert(s[1..], x, leq)
  }

  function Sort<T>(s: seq<T>, leq: (T, T) -> bool): (r: seq<T>)
  {
    if s == [] then [] else Insert(Sort(s[1..], leq), s[0], leq)
  }

  lemma HeadApart<T>(s: seq<T>)
    requires s != []
    ensures multiset(s) == multiset{s[0]} + multiset(s[1..])
  {
    assert s == [s[0]] + s[1..];
  }

  lemma Members<T>(a: seq<T>, b: seq<T>)
    requires multiset(a) == multiset(b)
    ensures |a| == |b| && forall x :: x in a <==> x in b
  {
    assert |a| == |multiset(a)| && |b| == |multiset(b)|;
    forall x ensures x in a <==> x in b {
      assert x in a <==> x in multiset(a);
      assert x in b <==> x in multiset(b);
    }
  }

  lemma {:induction false} InsertPermutes<T>(s: seq<T>, x: T, leq: (T, T) -> bool)
    ensures multiset(Insert(s, x, leq)) == multiset(s) + multiset{x}
  {
    if s != [] && !leq(x, s[0]) {
      InsertPermutes(s[1..], x, leq);
      HeadApart(s);
    }
  }

  lemma ConsSorted<T>(x: T, s: seq<T>, leq: (T, T) -> bool)
    requires SortedBy(s, leq) && forall y | y in s :: leq(x, y)
    ensures SortedBy([x] + s, leq)
  {
    var r := [x] + s;
    forall i, j | 0 <= i < j < |r| ensures leq(r[i], r[j]) {
      assert r[j] == s[j - 1];
      if i > 0 { assert r[i] == s[i - 1]; }
    }
  }

  lemma {:induction false} InsertSorts<T(!new)>(s: seq<T>, x: T, leq: (T, T) -> bool)
    requires TotalPreorder(leq) && SortedBy(s, leq)
    ensures SortedBy(Insert(s, x, leq), leq)
  {
    if s == [] {
    } else if leq(x, s[0]) {
      forall y | y in s ensures leq(x, y) {
        var i :| 0 <= i < |s| && s[i] == y;
      }
      ConsSorted(x, s, leq);
    } else {
      var rest := Insert(s[1..], x, leq);
      InsertSorts(s[1..], x, leq);
      InsertPermutes(s[1..], x, leq);
      forall y | y in rest ensures leq(s[0], y) {
        assert y in multiset(rest);
        if y != x {
          var i :| 0 <= i < |s[1..]| && s[1..][i] == y;
        }
      }
      ConsSorted(s[0], rest, leq);
    }
  }

  lemma {:induction false} SortSorts<T(!new)>(s: seq<T>, leq: (T, T) -> bool)
    requires TotalPreorder(leq)
    ensures SortedBy(Sort(s, leq), leq)
    ensures multiset(Sort(s, leq)) == multiset(s)
  {
    if s != [] {
      SortSorts(s[1..], leq);
      InsertSorts(Sort(s[1..], leq), s[0], leq);
      InsertPermutes(Sort(s[1..], leq), s[0], leq);
      HeadApart(s);
    }
  }

  lemma HeadIsLeast<T(!new)>(s: seq<T>, x: T, leq: (T, T) -> bool)
    requires TotalPreorder(leq) && SortedBy(s, leq) && x in s
    ensures leq(s[0], x)
  {
    var i :| 0 <= i < |s| && s[i] == x;
    assert leq(x, x);
  }

  lemma TailsAgree<T>(a: seq<T>, b: seq<T>)
    requires a != [] && b != [] && a[0] == b[0] && multiset(a) == multiset(b)
    ensures multiset(a[1..]) == multiset(b[1..])
  {
    HeadApart(a);
    HeadApart(b);
    assert multiset(a[1..]) == multiset(a) - multiset{a[0]};
    assert multiset(b[1..]) == multiset(b) - multiset{b[0]};
  }

  /** There is only one sorted rearrangement. */
  lemma {:induction false} SortedUnique<T(!new)>(a: seq<T>, b: seq<T>, leq: (T, T) -> bool)
    requires TotalPreorder(leq) && Antisymmetric(leq)
    requires SortedBy(a, leq) && SortedBy(b, leq) && multiset(a) == multiset(b)
    ensures a == b
  {
    Members(a, b);
    if a != [] {
      HeadIsLeast(a, b[0], leq);
      HeadIsLeast(b, a[0], leq);
      TailsAgree(a, b);
      SortedUnique(a[1..], b[1..], leq);
      assert a == [a[0]] + a[1..] && b == [b[0]] + b[1..];
    }
  }
}
