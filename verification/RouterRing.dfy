/** The ring as the router keeps it: fields updated in place, loops and all. */
module RouterRing {
  import opened Ring
  import opened RingDealing
  import opened Sequences
  import opened Sorting

  class Router {
    const vpos: (Id, nat) -> Pos
    var routers: set<Id>
    var posToRouter: map<Pos, Id>
    var positions: seq<Pos>

    ghost function View(): (s: RingState)
      reads this
    {
      RingState(routers, posToRouter, positions)
    }

    constructor (vpos: (Id, nat) -> Pos)
      ensures this.vpos == vpos && View() == EMPTY
    {
      this.vpos := vpos;
      routers, posToRouter, positions := {}, map[], [];
    }

    method Add(r: Id)
      modifies this
      ensures View() == AddRouter(old(View()), vpos, r)
    {
      if r in routers { return; }
      routers := routers + {r};
      var i := 0;
      while i < VIRTUAL_NODES
        invariant 0 <= i <= VIRTUAL_NODES
        invariant routers == old(routers) + {r}
        invariant positions == old(positions) + Virtual(vpos, r, i)
        invariant posToRouter == old(posToRouter) + map p | p in Virtual(vpos, r, i) :: r
      {
        var pos := vpos(r, i);
        assert Virtual(vpos, r, i + 1) == Virtual(vpos, r, i) + [pos];
        posToRouter := posToRouter[pos := r];
        positions := positions + [pos];
        i := i + 1;
      }
      positions := Sort(positions, Leq);
    }

    method Remove(r: Id)
      modifies this
      ensures View() == RemoveRouter(old(View()), r)
    {
      if r !in routers { return; }
      var kept: seq<Pos> := [];
      var i := 0;
      while i < |positions|
        invariant 0 <= i <= |positions| && positions == old(positions) && routers == old(routers)
        invariant Sweep(old(positions), old(posToRouter), r).0 == kept + Sweep(positions[i..], posToRouter, r).0
        invariant Sweep(old(positions), old(posToRouter), r).1 == Sweep(positions[i..], posToRouter, r).1
      {
        var pos := positions[i];
        assert positions[i..][1..] == positions[i + 1..];
        if Lookup(posToRouter, pos) != r {
          kept := kept + [pos];
        } else {
          posToRouter := posToRouter - {pos};
        }
        i := i + 1;
      }
      routers := routers - {r};
      positions := kept;
    }

    /** The result is an answer to the query. */
    method QueryHealthcheckURLs<Url>(r: Id, npos: Id -> Pos, nodes: map<Id, Url>) returns (out: map<Id, Url>)
      ensures IsAnswer(View(), npos, nodes, r, out)
    {
      NothingToDeal(View(), npos, nodes, r);
      if |positions| == 0 || |nodes| == 0 { return map[]; }
      var order := SortedNodes(npos, nodes);
      out := DealOut(r, npos, nodes, order);
    }

    /** The two-index loop; its position index never leaves the list. */
    method DealOut<Url>(r: Id, npos: Id -> Pos, nodes: map<Id, Url>, order: seq<Id>) returns (out: map<Id, Url>)
      requires positions != [] && forall x | x in order :: x in nodes
      ensures Deals(View(), order, npos, nodes, r, |order|, out)
    {
      ghost var s, places := View(), Places(order, npos);
      out := map[];
      var posIndex, k := 0, 0;
      while k < |order|
        invariant 0 <= k <= |order|
        invariant posIndex == if k == 0 then 0 else PosIndex(positions, places, k - 1)
        invariant Deals(s, order, npos, nodes, r, k, out)
      {
        var pos := npos(order[k]);
        if posIndex < |positions| && positions[posIndex] < pos { posIndex := posIndex + 1; }
        if posIndex == |positions| { posIndex := 0; }
        assert posIndex == PosIndex(positions, places, k);
        DealsOneMore(s, order, npos, nodes, r, k, out);
        if Lookup(posToRouter, positions[posIndex]) == r {
          out := out[order[k] := nodes[order[k]]];
        }
        k := k + 1;
      }
    }
  }

  lemma NothingToDeal<Url>(s: RingState, npos: Id -> Pos, nodes: map<Id, Url>, r: Id)
    ensures s.positions == [] || |nodes| == 0 ==> IsAnswer(s, npos, nodes, r, map[])
  {
    if |nodes| == 0 && s.positions != [] {
      assert nodes.Keys == {};
      assert IsOrder([], npos, nodes) && Deals(s, [], npos, nodes, r, 0, map[]);
    }
  }

  /** Collecting and sorting the nodes: some order by position. */
  method SortedNodes<Url>(npos: Id -> Pos, nodes: map<Id, Url>) returns (order: seq<Id>)
    ensures IsOrder(order, npos, nodes)
  {
    var ids: seq<Id> := [];
    var rest := nodes.Keys;
    while rest != {}
      invariant rest <= nodes.Keys
      invariant forall n :: n in ids <==> n in nodes && n !in rest
      invariant Distinct(ids)
      decreases |rest|
    {
      var n :| n in rest;
      rest := rest - {n};
      ids := ids + [n];
    }
    var leq := (a: Id, b: Id) => npos(a) <= npos(b);
    order := Sort(ids, leq);
    SortSorts(ids, leq);
    DistinctPermutation(order, ids);
    Members(order, ids);
    forall i, j | 0 <= i < j < |order| ensures npos(order[i]) <= npos(order[j]) {
      assert leq(order[i], order[j]);
    }
  }

  lemma DealsOneMore<Url>(s: RingState, order: seq<Id>, npos: Id -> Pos, nodes: map<Id, Url>,
                          r: Id, k: nat, out: map<Id, Url>)
    requires s.positions != [] && k < |order| && forall x | x in order :: x in nodes
    requires Deals(s, order, npos, nodes, r, k, out)
    ensures var out' := if RouterOf(s, order, npos, k) == r then out[order[k] := nodes[order[k]]] else out;
            Deals(s, order, npos, nodes, r, k + 1, out')
  {
    var out' := if RouterOf(s, order, npos, k) == r then out[order[k] := nodes[order[k]]] else out;
    forall x | x in out'
      ensures exists i :: 0 <= i < k + 1 && order[i] == x && RouterOf(s, order, npos, i) == r
    {
      if x in out {
        var i :| 0 <= i < k && order[i] == x && RouterOf(s, order, npos, i) == r;
      } else {
        assert order[k] == x;
      }
    }
  }
}
