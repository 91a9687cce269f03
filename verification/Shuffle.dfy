/** The shuffle of candidate nodes (cached_node_finder.go): Fisher-Yates on a copy. */
module Shuffle {
  import opened Bytes
  import opened Sequences

  /** choices[i] is the partner drawn for place i; places are handled from the last down to
      the second, so the first entry is not a draw. */
  predicate Drawable(choices: seq<int>)
  {
    choices != [] ==> choices[0] == 0 && forall i | 0 <= i < |choices| :: 0 <= choices[i] <= i
  }

  /** Swap the last place with the one drawn for it, then go on with the places before it. */
  function Shuffled<T>(s: seq<T>, choices: seq<int>): (r: seq<T>)
    requires Drawable(choices) && |choices| == |s|
    ensures |r| == |s|
    decreases |s|
  {
    if |s| <= 1 then s
    else
      var m := |s| - 1;
      var s' := Swapped(s, m, choices[m]);
      Shuffled(s'[..m], choices[..m]) + [s'[m]]
  }

  lemma SwapDistinct<T>(s: seq<T>, j: nat)
    requires j < |s| && Distinct(s)
    ensures Distinct(Swapped(s, |s| - 1, j)[..|s| - 1])
  {
    var m := |s| - 1;
    var r := Swapped(s, m, j);
    forall k | 0 <= k < m ensures r[..m][k] == if k == j then s[m] else s[k] {}
  }

  lemma LastApart<T>(s: seq<T>)
    requires s != []
    ensures multiset(s) == multiset(s[..|s| - 1]) + multiset{s[|s| - 1]}
  {
    assert s == s[..|s| - 1] + [s[|s| - 1]];
  }

  /** The last place goes to the node drawn for it, the rest to a shuffle of the others. */
  lemma ShuffledLast<T>(s: seq<T>, choices: seq<int>)
    requires Drawable(choices) && |choices| == |s| > 1
    ensures var m := |s| - 1;
            && Shuffled(s, choices)[m] == s[choices[m]]
            && Shuffled(s, choices)[..m] == Shuffled(Swapped(s, m, choices[m])[..m], choices[..m])
  {
  }

  lemma SameLast<T>(r: seq<T>, s: seq<T>)
    requires |r| == |s| > 0 && r[|r| - 1] == s[|s| - 1]
    requires multiset(r[..|r| - 1]) == multiset(s[..|s| - 1])
    ensures multiset(r) == multiset(s)
  {
    LastApart(r);
    LastApart(s);
  }

  lemma {:induction false} ShufflePermutes<T>(s: seq<T>, choices: seq<int>)
    requires Drawable(choices) && |choices| == |s|
    ensures multiset(Shuffled(s, choices)) == multiset(s)
    decreases |s|
  {
    if |s| > 1 {
      var m := |s| - 1;
      var s' := Swapped(s, m, choices[m]);
      SwappedPermutes(s, m, choices[m]);
      ShufflePermutes(s'[..m], choices[..m]);
      ShuffledLast(s, choices);
      SameLast(Shuffled(s, choices), s');
    }
  }

  lemma SameLastDraw<T>(s: seq<T>, c: seq<int>, d: seq<int>)
    requires Distinct(s) && Drawable(c) && Drawable(d) && |c| == |d| == |s| > 1
    requires Shuffled(s, c) == Shuffled(s, d)
    ensures c[|s| - 1] == d[|s| - 1]
  {
    ShuffledLast(s, c);
    ShuffledLast(s, d);
    var i, j := c[|s| - 1], d[|s| - 1];
    assert s[i] == s[j];
  }

  lemma SameInitAndLast(c: seq<int>, d: seq<int>)
    requires |c| == |d| > 0 && c[..|c| - 1] == d[..|d| - 1] && c[|c| - 1] == d[|d| - 1]
    ensures c == d
  {
    assert c == c[..|c| - 1] + [c[|c| - 1]] && d == d[..|d| - 1] + [d[|d| - 1]];
  }

  /** Different draws, different orders. */
  lemma {:induction false} ShuffleInjective<T>(s: seq<T>, c: seq<int>, d: seq<int>)
    requires Distinct(s) && Drawable(c) && Drawable(d) && |c| == |d| == |s|
    requires Shuffled(s, c) == Shuffled(s, d)
    ensures c == d
    decreases |s|
  {
    if |s| > 1 {
      var m := |s| - 1;
      SameLastDraw(s, c, d);
      ShuffledLast(s, c);
      ShuffledLast(s, d);
      SwapDistinct(s, c[m]);
      ShuffleInjective(Swapped(s, m, c[m])[..m], c[..m], d[..m]);
      SameInitAndLast(c, d);
    }
  }

  lemma DrawLast<T>(s: seq<T>, goal: seq<T>) returns (j: nat)
    requires multiset(s) == multiset(goal) && |s| == |goal| > 0
    ensures j < |s| && s[j] == goal[|s| - 1]
    ensures multiset(Swapped(s, |s| - 1, j)[..|s| - 1]) == multiset(goal[..|s| - 1])
  {
    var m := |s| - 1;
    assert goal[m] in multiset(s);
    j :| 0 <= j < |s| && s[j] == goal[m];
    SwappedPermutes(s, m, j);
    LastApart(Swapped(s, m, j));
    LastApart(goal);
    Cancel(multiset(Swapped(s, m, j)[..m]), multiset(goal[..m]), goal[m]);
  }

  lemma DrawOneMore<T>(s: seq<T>, rest: seq<int>, j: nat)
    requires Drawable(rest) && |rest| + 1 == |s| && j < |s|
    ensures Drawable(rest + [j])
    ensures Shuffled(s, rest + [j]) == Shuffled(Swapped(s, |s| - 1, j)[..|s| - 1], rest) + [s[j]]
  {
    assert (rest + [j])[..|rest|] == rest;
  }

  /** Every order has a draw. */
  lemma {:induction false} ShuffleOnto<T>(s: seq<T>, goal: seq<T>) returns (choices: seq<int>)
    requires multiset(s) == multiset(goal) && |s| == |goal|
    ensures Drawable(choices) && |choices| == |s| && Shuffled(s, choices) == goal
    decreases |s|
  {
    if |s| == 0 {
      choices := [];
    } else {
      var m := |s| - 1;
      var j := DrawLast(s, goal);
      var rest := ShuffleOnto(Swapped(s, m, j)[..m], goal[..m]);
      DrawOneMore(s, rest, j);
      choices := rest + [j];
      assert goal == goal[..m] + [goal[m]];
    }
  }

  /** The shuffle is a bijection between draws and orders, so uniform draws give uniform
      orders: every draw gives an order, no two the same, and every order is drawn. */
  lemma ShuffleIsBijection<T>(s: seq<T>)
    requires Distinct(s)
    ensures forall c | Drawable(c) && |c| == |s| :: multiset(Shuffled(s, c)) == multiset(s)
    ensures forall c, d | Drawable(c) && Drawable(d) && |c| == |d| == |s| && Shuffled(s, c) == Shuffled(s, d) :: c == d
  {
    forall c | Drawable(c) && |c| == |s| ensures multiset(Shuffled(s, c)) == multiset(s) {
      ShufflePermutes(s, c);
    }
    forall c, d | Drawable(c) && Drawable(d) && |c| == |d| == |s| && Shuffled(s, c) == Shuffled(s, d)
      ensures c == d
    {
      ShuffleInjective(s, c, d);
    }
  }

  lemma EveryOrderIsDrawn<T>(s: seq<T>, goal: seq<T>)
    requires multiset(s) == multiset(goal)
    ensures exists c :: Drawable(c) && |c| == |s| && Shuffled(s, c) == goal
  {
    assert |s| == |multiset(s)| == |multiset(goal)| == |goal|;
    var c := ShuffleOnto(s, goal);
  }

  /** What the in-place shuffle will end with, when places above i are settled. */
  ghost function Pending<T>(s: seq<T>, choices: seq<int>, i: int): (r: seq<T>)
    requires Drawable(choices) && |choices| == |s| && -1 <= i < |s|
  {
    Shuffled(s[..i + 1], choices[..i + 1]) + s[i + 1..]
  }

  lemma PendingStep<T>(s: seq<T>, choices: seq<int>, i: nat)
    requires Drawable(choices) && |choices| == |s| && 0 < i < |s|
    ensures Pending(s, choices, i) == Pending(Swapped(s, i, choices[i]), choices, i - 1)
  {
    var s' := Swapped(s, i, choices[i]);
    assert Swapped(s[..i + 1], i, choices[i]) == s'[..i + 1];
    assert s'[..i + 1][..i] == s'[..i] && choices[..i + 1][..i] == choices[..i];
    assert s'[i..] == [s'[i]] + s[i + 1..];
  }

  lemma PendingEnds<T>(s: seq<T>, choices: seq<int>)
    requires Drawable(choices) && |choices| == |s|
    ensures Pending(s, choices, |s| - 1) == Shuffled(s, choices)
    ensures |s| > 0 ==> Pending(s, choices, 0) == s
    ensures Pending(s, choices, -1) == s
  {
    assert s[..|s|] == s && choices[..|s|] == choices && s[|s|..] == [];
    assert s == s[..0] + s[0..];
    if |s| > 0 { assert s == s[..1] + s[1..]; }
  }

  /** The swaps the loop still has to do at place i. */
  function Settle<T>(s: seq<T>, choices: seq<int>, i: int): (r: seq<T>)
    requires Drawable(choices) && |choices| == |s| && i < |s|
    decreases i
  {
    if i <= 0 then s else Settle(Swapped(s, i, choices[i]), choices, i - 1)
  }

  lemma {:induction false} SettleIsPending<T>(s: seq<T>, choices: seq<int>, i: int)
    requires Drawable(choices) && |choices| == |s| && -1 <= i < |s|
    ensures Settle(s, choices, i) == Pending(s, choices, i)
    decreases i
  {
    if i <= 0 {
      PendingEnds(s, choices);
    } else {
      PendingStep(s, choices, i);
      SettleIsPending(Swapped(s, i, choices[i]), choices, i - 1);
    }
  }

  /** The swaps in place do what the shuffle is defined to do. */
  lemma SettleShuffles<T>(s: seq<T>, choices: seq<int>)
    requires Drawable(choices) && |choices| == |s|
    ensures Settle(s, choices, |s| - 1) == Shuffled(s, choices)
  {
    SettleIsPending(s, choices, |s| - 1);
    PendingEnds(s, choices);
  }

  method SwapNodes<T>(nodes: array<T>, i: nat, j: nat)
    requires i < nodes.Length && j < nodes.Length
    modifies nodes
    ensures nodes[..] == Swapped(old(nodes[..]), i, j)
  {
    nodes[i], nodes[j] := nodes[j], nodes[i];
  }

  /** cryptoShuffle with the swap of shuffleNodes. choices is what the random source draws, and
      failAt the first place, counting down, at which it fails instead; 0 if it never does. */
  method CryptoShuffle<T>(nodes: array<T>, choices: seq<int>, failAt: nat) returns (ok: bool)
    requires Drawable(choices) && |choices| == nodes.Length
    modifies nodes
    ensures ok <==> failAt == 0 || failAt >= nodes.Length
    ensures ok ==> nodes[..] == Shuffled(old(nodes[..]), choices)
  {
    SettleShuffles(nodes[..], choices);
    var i := nodes.Length - 1;
    while i > 0
      invariant -1 <= i < nodes.Length && (i == -1 ==> nodes.Length == 0)
      invariant failAt <= i || failAt == 0 || failAt >= nodes.Length
      invariant Settle(nodes[..], choices, i) == Settle(old(nodes[..]), choices, nodes.Length - 1)
    {
      if i == failAt { return false; }
      SwapNodes(nodes, i, choices[i]);
      i := i - 1;
    }
    return true;
  }

  /** shuffleNodes: the cached nodes are copied first and stay as they are. */
  method ShuffleNodes<T>(cached: array<T>, choices: seq<int>, failAt: nat) returns (nodes: Option<array<T>>)
    requires Drawable(choices) && |choices| == cached.Length
    ensures nodes.Some? <==> failAt == 0 || failAt >= cached.Length
    ensures nodes.Some? ==> fresh(nodes.value) && nodes.value[..] == Shuffled(cached[..], choices)
  {
    var copy := new T[cached.Length](i requires 0 <= i < cached.Length reads cached => cached[i]);
    assert copy[..] == cached[..];
    if cached.Length == 0 { return Some(copy); }
    var ok := CryptoShuffle(copy, choices, failAt);
    return if ok then Some(copy) else None;
  }
}
