/** The heap of delayed items (delay/pool_heap.go) under the sifting of container/heap. */
module DelayHeap {
  import opened Sequences

  class PoolItem<T> {
    const val: T
    const delay: int
    const availableAfter: int
    var index: int

    constructor (val: T, delay: int, availableAfter: int)
      ensures this.val == val && this.delay == delay && this.availableAfter == availableAfter
    {
      this.val, this.delay, this.availableAfter := val, delay, availableAfter;
      index := 0;
    }
  }

  function Parent(i: nat): (p: nat)
    requires i > 0
    ensures p < i
  {
    (i - 1) / 2
  }

  ghost predicate OrderedAt<T>(items: seq<PoolItem<T>>, i: int)
    requires 0 < i < |items|
  {
    items[Parent(i)].availableAfter <= items[i].availableAfter
  }

  ghost predicate HeapOrdered<T>(items: seq<PoolItem<T>>)
  {
    forall i | 0 < i < |items| :: OrderedAt(items, i)
  }

  /** The root is due no later than anything else. */
  lemma {:induction false} RootIsEarliest<T>(items: seq<PoolItem<T>>, i: nat)
    requires HeapOrdered(items) && i < |items|
    ensures items[0].availableAfter <= items[i].availableAfter
  {
    if i > 0 {
      RootIsEarliest(items, Parent(i));
      assert OrderedAt(items, i);
    }
  }

  lemma RootBeforeAll<T>(items: seq<PoolItem<T>>)
    requires HeapOrdered(items) && items != []
    ensures forall x | x in items :: items[0].availableAfter <= x.availableAfter
  {
    forall x | x in items ensures items[0].availableAfter <= x.availableAfter {
      var i :| 0 <= i < |items| && items[i] == x;
      RootIsEarliest(items, i);
    }
  }

  /** Sifting up: the order may fail between j and its parent only. */
  ghost predicate UpOrdered<T>(items: seq<PoolItem<T>>, j: int)
    requires 0 <= j < |items|
  {
    && (forall k | 0 < k < |items| && k != j :: OrderedAt(items, k))
    && (j > 0 ==> forall k | 0 < k < |items| && Parent(k) == j ::
                    items[Parent(j)].availableAfter <= items[k].availableAfter)
  }

  /** Sifting down in the first n places: the order may fail between i and its children only. */
  ghost predicate DownOrdered<T>(items: seq<PoolItem<T>>, i: int, n: int)
    requires 0 <= i && n <= |items|
  {
    && (forall k | 0 < k < n && Parent(k) != i :: OrderedAt(items, k))
    && (0 < i < n ==> forall k | 0 < k < n && Parent(k) == i ::
                        items[Parent(i)].availableAfter <= items[k].availableAfter)
  }

  /** r holds what s holds, and the same from place n on. */
  ghost predicate Rearranges<T>(s: seq<T>, r: seq<T>, n: nat)
  {
    && |r| == |s| && multiset(r) == multiset(s)
    && (forall k | 0 <= k < |r| :: r[k] in s)
    && (forall k | n <= k < |r| :: r[k] == s[k])
  }

  lemma SwapRearranges<T>(s: seq<T>, r: seq<T>, n: nat, i: nat, j: nat)
    requires Rearranges(s, r, n) && i < n && j < n <= |r|
    ensures Rearranges(s, Swapped(r, i, j), n)
  {
    SwappedPermutes(r, i, j);
  }

  lemma UpStep<T>(items: seq<PoolItem<T>>, j: nat)
    requires 0 < j < |items| && UpOrdered(items, j)
    requires items[j].availableAfter < items[Parent(j)].availableAfter
    ensures UpOrdered(Swapped(items, Parent(j), j), Parent(j))
  {
    var i := Parent(j);
    var r := Swapped(items, i, j);
    forall k | 0 < k < |items| && k != i ensures OrderedAt(r, k) {
      assert k != j ==> OrderedAt(items, k);
    }
    if i > 0 {
      assert OrderedAt(items, i);
      forall k | 0 < k < |items| && Parent(k) == i
        ensures r[Parent(i)].availableAfter <= r[k].availableAfter
      {
        assert k != j ==> OrderedAt(items, k);
      }
    }
  }

  lemma DownStep<T>(items: seq<PoolItem<T>>, i: nat, j: nat, n: nat)
    requires i < j < n <= |items| && DownOrdered(items, i, n) && Parent(j) == i
    requires items[j].availableAfter < items[i].availableAfter
    requires forall k | 0 < k < n && Parent(k) == i :: items[j].availableAfter <= items[k].availableAfter
    ensures DownOrdered(Swapped(items, i, j), j, n)
  {
    var r := Swapped(items, i, j);
    forall k | 0 < k < n && Parent(k) != j ensures OrderedAt(r, k) {
      assert Parent(k) != i ==> OrderedAt(items, k);
    }
    forall k | 0 < k < n && Parent(k) == j
      ensures r[Parent(j)].availableAfter <= r[k].availableAfter
    {
      assert OrderedAt(items, k);
    }
  }

  /** The root has been exchanged with the last item. */
  lemma RootToEnd<T>(items: seq<PoolItem<T>>)
    requires HeapOrdered(items) && items != []
    ensures DownOrdered(Swapped(items, 0, |items| - 1), 0, |items| - 1)
  {
    var n := |items| - 1;
    forall k | 0 < k < n && Parent(k) != 0 ensures OrderedAt(Swapped(items, 0, n), k) {
      assert OrderedAt(items, k);
    }
  }

  /** It is the one that goes out, whatever sifting does to the others. */
  lemma RootOut<T>(items: seq<PoolItem<T>>, sifted: seq<PoolItem<T>>, item: PoolItem<T>)
    requires items != [] && Rearranges(Swapped(items, 0, |items| - 1), sifted, |items| - 1)
    requires sifted[|items| - 1] == item
    ensures item == items[0] && multiset(items) == multiset(sifted[..|items| - 1]) + multiset{item}
  {
    var n := |items| - 1;
    SwappedPermutes(items, 0, n);
    assert sifted == sifted[..n] + [item];
  }

  /** Neither child of i is due before it. */
  ghost predicate DownSettled<T>(items: seq<PoolItem<T>>, i: nat, n: nat)
    requires n <= |items|
  {
    && (2 * i + 1 < n ==> items[i].availableAfter <= items[2 * i + 1].availableAfter)
    && (2 * i + 2 < n ==> items[i].availableAfter <= items[2 * i + 2].availableAfter)
  }

  /** Then sifting down is over. */
  lemma DownDone<T>(items: seq<PoolItem<T>>, i: nat, n: nat)
    requires n <= |items| && DownOrdered(items, i, n)
    requires DownSettled(items, i, n)
    ensures HeapOrdered(items[..n])
  {
    forall k | 0 < k < n ensures OrderedAt(items[..n], k) {
      if Parent(k) == i { assert k == 2 * i + 1 || k == 2 * i + 2; }
      assert OrderedAt(items, k);
    }
  }

  class PoolHeap<T> {
    var items: seq<PoolItem<T>>

    /** Every item knows its place; so no item is in the heap twice. */
    ghost predicate Indexed()
      reads this, items
    {
      forall i | 0 <= i < |items| :: items[i].index == i
    }

    ghost predicate Valid()
      reads this, items
    {
      Indexed() && HeapOrdered(items)
    }

    constructor ()
      ensures items == [] && Valid()
    {
      items := [];
    }

    predicate Less(i: nat, j: nat)
      requires i < |items| && j < |items|
      reads this
    {
      items[i].availableAfter < items[j].availableAfter
    }

    method Swap(i: nat, j: nat)
      requires Indexed() && i < |items| && j < |items|
      modifies this, items[i], items[j]
      ensures Indexed() && items == Swapped(old(items), i, j)
    {
      items := items[i := items[j]][j := items[i]];
      items[i].index := i;
      items[j].index := j;
    }

    method Append(item: PoolItem<T>)
      requires Indexed() && item !in items
      modifies this, item
      ensures Indexed() && items == old(items) + [item]
    {
      item.index := |items|;
      items := items + [item];
    }

    method RemoveLast() returns (item: PoolItem<T>)
      requires Indexed() && items != []
      modifies this, items[|items| - 1]
      ensures Indexed() && old(items) == items + [item] && item.index == -1 && item !in items
    {
      var n := |items|;
      item := items[n - 1];
      item.index := -1;
      items := items[..n - 1];
    }

    method Up(start: nat)
      requires Indexed() && start < |items| && UpOrdered(items, start)
      modifies this, items
      ensures Valid() && multiset(items) == multiset(old(items))
      ensures items[0] == if start == 0 || old(items[start].availableAfter < items[0].availableAfter)
                          then old(items[start]) else old(items[0])
    {
      var j := start;
      ghost var item, root := items[start], items[0];
      while j > 0 && Less(j, Parent(j))
        invariant Rearranges(old(items), items, |items|)
        invariant Indexed() && 0 <= j <= start && UpOrdered(items, j)
        invariant items[j] == item
        invariant j > 0 ==> items[0] == root
        invariant j == 0 ==> start == 0 || item.availableAfter < root.availableAfter
        decreases j
      {
        UpStep(items, j);
        SwapRearranges(old(items), items, |items|, Parent(j), j);
        Swap(Parent(j), j);
        j := Parent(j);
      }
      if j > 0 {
        assert OrderedAt(items, j);
        assert HeapOrdered(items);
        RootIsEarliest(items, j);
      }
    }

    /** The child of i due first; the left one on a tie. */
    method EarlierChild(i: nat, n: nat) returns (j: nat)
      requires 2 * i + 1 < n <= |items|
      ensures i < j < n && Parent(j) == i
      ensures forall k | 0 < k < n && Parent(k) == i ::
                items[j].availableAfter <= items[k].availableAfter
      ensures !Less(j, i) ==> DownSettled(items, i, n)
    {
      j := 2 * i + 1;
      if j + 1 < n && Less(j + 1, j) { j := j + 1; }
      assert forall k | 0 < k < n && Parent(k) == i :: k == 2 * i + 1 || k == 2 * i + 2;
    }

    /** One turn of the loop in Down: j is i when there is nothing to do. */
    method DownOne(i: nat, n: nat) returns (j: nat)
      requires Indexed() && 2 * i + 1 < n <= |items| && DownOrdered(items, i, n)
      modifies this, items
      ensures |items| == |old(items)| && Indexed() && i <= j < n && DownOrdered(items, j, n)
      ensures j == i ==> items == old(items) && DownSettled(items, i, n)
      ensures j > i ==> items == Swapped(old(items), i, j)
    {
      j := EarlierChild(i, n);
      if !Less(j, i) { return i; }
      DownStep(items, i, j, n);
      Swap(i, j);
    }

    method Down(n: nat)
      requires Indexed() && n <= |items| && DownOrdered(items, 0, n)
      modifies this, items
      ensures Indexed() && Rearranges(old(items), items, n) && HeapOrdered(items[..n])
    {
      var i := 0;
      ghost var start := items;
      while 2 * i + 1 < n
        invariant Rearranges(start, items, n)
        invariant Indexed() && DownOrdered(items, i, n)
        decreases n - i
      {
        ghost var before := items;
        var j := DownOne(i, n);
        if j == i { break; }
        SwapRearranges(start, before, n, i, j);
        i := j;
      }
      DownDone(items, i, n);
    }

    /** heap.Push: the new item is at the root exactly when it is due strictly before
        everything that was there. */
    method Push(item: PoolItem<T>)
      requires Valid() && item !in items
      modifies this, items, item
      ensures Valid() && multiset(items) == multiset(old(items)) + multiset{item}
      ensures items[0] == item <==>
              (forall x | x in old(items) :: item.availableAfter < x.availableAfter)
    {
      ghost var before := items;
      Append(item);
      forall k | 0 < k < |items| - 1 ensures OrderedAt(items, k) {
        assert OrderedAt(before, k);
      }
      Up(|items| - 1);
      if before != [] { RootBeforeAll(before); }
    }

    /** heap.Pop: takes out an item no other is due before. */
    method Pop() returns (item: PoolItem<T>)
      requires Valid() && items != []
      modifies this, items
      ensures Valid() && multiset(old(items)) == multiset(items) + multiset{item}
      ensures item == old(items[0]) && item.index == -1
      ensures forall x | x in old(items) :: item.availableAfter <= x.availableAfter
    {
      ghost var before := items;
      RootBeforeAll(before);
      var n := |items| - 1;
      RootToEnd(before);
      Swap(0, n);
      Down(n);
      ghost var sifted := items;
      item := RemoveLast();
      assert items == sifted[..n];
      RootOut(before, sifted, item);
    }
  }
}
