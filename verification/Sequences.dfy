/** What several models say about sequences. */
module Sequences {

  /** Nothing occurs twice. */
  ghost predicate Distinct<T>(s: seq<T>)
  {
    forall i, j | 0 <= i < j < |s| :: s[i] != s[j]
  }

  /** s with the elements in places i and j exchanged. */
  function Swapped<T>(s: seq<T>, i: nat, j: nat): (r: seq<T>)
    requires i < |s| && j < |s|
  {
    s[i := s[j]][j := s[i]]
  }

  lemma SwappedPermutes<T>(s: seq<T>, i: nat, j: nat)
    requires i < |s| && j < |s|
    ensures multiset(Swapped(s, i, j)) == multiset(s)
  {
  }

  /** s without the element in place k. */
  ghost function Without<T>(s: seq<T>, k: nat): (r: seq<T>)
    requires k < |s|
    ensures multiset(r) == multiset(s) - multiset{s[k]}
    ensures multiset(s) == multiset(r) + multiset{s[k]}
  {
    assert s == s[..k] + ([s[k]] + s[k + 1..]);
    s[..k] + s[k + 1..]
  }

  lemma Cancel<T>(a: multiset<T>, b: multiset<T>, x: T)
    requires a + multiset{x} == b + multiset{x}
    ensures a == b
  {
    assert a == a + multiset{x} - multiset{x};
    assert b == b + multiset{x} - multiset{x};
  }

  /** To count with. */
  function One(b: bool): (n: nat)
  {
    if b then 1 else 0
  }
}
