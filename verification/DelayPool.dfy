/** The delay pool (delay/pool.go): adders, one processor and one closer sharing a locked heap,
    two one-slot notification channels, a close context and an output channel.

    Each step below is one critical section, one channel operation or one clock reading, and any
    interleaving of them is a run. */
module DelayPool {
  import opened DelayHeap
  import opened Sequences

  datatype Item<T> = Item(val: T, delay: int, due: int)

  /** What the lock protects, and the two notification channels. */
  datatype Shared<T(==)> = Shared(
    capacity: int, heap: multiset<Item<T>>, closed: bool, newItem: bool, space: bool)

  datatype AddResult = Added | Full | PoolClosed

  ghost predicate Earliest<T>(heap: multiset<Item<T>>, x: Item<T>)
  {
    x in heap && forall y | y in heap :: x.due <= y.due
  }

  /** tryAdd: refuse when closed, hold back when full, else push; wake the processor if the
      item is now the first one due. */
  ghost function TryAdd<T>(p: Shared<T>, x: Item<T>): (r: (Shared<T>, AddResult))
  {
    if p.closed then (p, PoolClosed)
    else if p.capacity > 0 && |p.heap| >= p.capacity then (p, Full)
    else
      var first := forall y | y in p.heap :: x.due < y.due;
      (p.(heap := p.heap + multiset{x}, newItem := p.newItem || first), Added)
  }

  // ---------- The critical sections, on the real heap ----------

  function ItemOf<T>(item: PoolItem<T>): (x: Item<T>)
  {
    Item(item.val, item.delay, item.availableAfter)
  }

  function ItemSeq<T>(items: seq<PoolItem<T>>): (r: seq<Item<T>>)
  {
    seq(|items|, i requires 0 <= i < |items| => ItemOf(items[i]))
  }

  function ItemsOf<T(==)>(items: seq<PoolItem<T>>): (m: multiset<Item<T>>)
  {
    multiset(ItemSeq(items))
  }

  lemma ItemsOfConcat<T>(a: seq<PoolItem<T>>, b: seq<PoolItem<T>>)
    ensures ItemsOf(a + b) == ItemsOf(a) + ItemsOf(b)
  {
    assert ItemSeq(a + b) == ItemSeq(a) + ItemSeq(b);
  }

  lemma ItemsOfWithout<T>(items: seq<PoolItem<T>>, k: nat)
    requires k < |items|
    ensures ItemsOf(items) == ItemsOf(Without(items, k)) + multiset{ItemOf(items[k])}
  {
    assert ItemSeq(Without(items, k)) == Without(ItemSeq(items), k);
  }

  /** The items held do not depend on the order they are held in. */
  lemma {:induction false} ItemsOfPermutation<T>(a: seq<PoolItem<T>>, b: seq<PoolItem<T>>)
    requires multiset(a) == multiset(b)
    ensures ItemsOf(a) == ItemsOf(b)
    decreases |a|
  {
    if a == [] {
      assert |multiset(b)| == 0;
    } else {
      assert a[0] in multiset(b);
      var k :| 0 <= k < |b| && b[k] == a[0];
      ItemsOfPermutation(Without(a, 0), Without(b, k));
      ItemsOfWithout(a, 0);
      ItemsOfWithout(b, k);
    }
  }

  lemma ItemsOfPlus<T>(before: seq<PoolItem<T>>, after: seq<PoolItem<T>>, item: PoolItem<T>)
    requires multiset(after) == multiset(before) + multiset{item}
    ensures ItemsOf(after) == ItemsOf(before) + multiset{ItemOf(item)}
  {
    ItemsOfPermutation(after, before + [item]);
    ItemsOfConcat(before, [item]);
    assert ItemSeq([item]) == [ItemOf(item)];
  }

  lemma FirstDue<T>(items: seq<PoolItem<T>>, item: PoolItem<T>)
    ensures (forall x | x in items :: item.availableAfter < x.availableAfter)
            <==> forall y | y in ItemsOf(items) :: item.availableAfter < y.due
  {
    forall x | x in items ensures ItemOf(x) in ItemsOf(items) {
      var i :| 0 <= i < |items| && items[i] == x;
      assert ItemSeq(items)[i] == ItemOf(x);
    }
    forall y | y in ItemsOf(items) ensures exists x :: x in items && ItemOf(x) == y {
      var i :| 0 <= i < |items| && ItemSeq(items)[i] == y;
      assert items[i] in items && ItemOf(items[i]) == y;
    }
  }

  lemma RootEarliest<T>(items: seq<PoolItem<T>>)
    requires HeapOrdered(items) && items != []
    ensures Earliest(ItemsOf(items), ItemOf(items[0]))
  {
    assert ItemSeq(items)[0] == ItemOf(items[0]);
    forall y | y in ItemsOf(items) ensures items[0].availableAfter <= y.due {
      var i :| 0 <= i < |items| && ItemSeq(items)[i] == y;
      RootIsEarliest(items, i);
    }
  }

  class Pool<T(==)> {
    const heap: PoolHeap<T>
    const capacity: int
    var closed: bool
    var notifyNewItem: bool
    var notifySpaceAvailable: bool

    ghost predicate Valid()
      reads this, heap, heap.items
    {
      heap.Valid()
    }

    ghost function View(): (p: Shared<T>)
      reads this, heap
    {
      Shared(capacity, ItemsOf(heap.items), closed, notifyNewItem, notifySpaceAvailable)
    }

    constructor (capacity: int)
      ensures Valid() && fresh(heap) && View() == Shared(capacity, multiset{}, false, false, false)
    {
      this.capacity := capacity;
      closed, notifyNewItem, notifySpaceAvailable := false, false, false;
      heap := new PoolHeap<T>();
    }

    method TryAddItem(item: PoolItem<T>) returns (r: AddResult)
      requires Valid() && item !in heap.items
      modifies this, heap, heap.items, item
      ensures Valid() && (View(), r) == TryAdd(old(View()), ItemOf(item))
    {
      if closed { return PoolClosed; }
      if capacity > 0 && |heap.items| >= capacity { return Full; }
      var wasEmpty := |heap.items| == 0;
      ghost var before := heap.items;
      heap.Push(item);
      ItemsOfPlus(before, heap.items, item);
      var isEarliest := heap.items[0] == item;
      FirstDue(before, item);
      if wasEmpty || isEarliest { notifyNewItem := true; }
      r := Added;
    }

    method FirstClose() returns (first: bool)
      modifies this
      ensures first == !old(closed) && View() == old(View()).(closed := true)
    {
      if closed { return false; }
      closed := true;
      return true;
    }

    /** The locked part of one turn of processReadyItems: an earliest item leaves the heap if
        it is due at now; otherwise none is. */
    method PopReady(now: int) returns (item: PoolItem?<T>)
      requires Valid()
      modifies heap, heap.items
      ensures Valid()
      ensures item == null ==> View() == old(View()) && forall y | y in View().heap :: y.due > now
      ensures item != null ==>
                && Earliest(old(View()).heap, ItemOf(item)) && item.availableAfter <= now
                && View() == old(View()).(heap := old(View()).heap - multiset{ItemOf(item)})
    {
      if |heap.items| == 0 { return null; }
      RootEarliest(heap.items);
      if heap.items[0].availableAfter > now { return null; }
      ghost var before := heap.items;
      var top := heap.Pop();
      ItemsOfPlus(heap.items, before, top);
      item := top;
    }
  }
}
