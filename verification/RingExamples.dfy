/** A ring on which nodes are not given their successors, and tied nodes not the same router: two
    routers whose virtual nodes alternate, and nodes past the last of them. */
module RingExamples {
  import opened Ring
  import opened RingDealing
  import opened Sorting

  function Alternating(r: Id, i: nat): (p: Pos)
  {
    2 * i + r
  }

  /** The positions 1 to 200, the odd ones owned by router 1 and the even ones by router 2. */
  function TwoRouters(): (s: RingState)
  {
    RingState({1, 2}, map p: Pos | 1 <= p <= 200 :: if p % 2 == 1 then 1 else 2,
              seq(2 * VIRTUAL_NODES, k requires k >= 0 => k + 1))
  }

  function AtThousand(n: Id): (p: Pos)
  {
    1000
  }

  lemma NoCollisions()
    ensures CollisionFree(Alternating, {1, 2})
  {
  }

  lemma OwnsHalf(r: Id, p: Pos)
    requires r == 1 || r == 2
    ensures Owns(Alternating, r, p) <==> 1 <= p <= 200 && p % 2 == r % 2
  {
    if 1 <= p <= 200 && p % 2 == r % 2 {
      var i := (p - r) / 2;
      assert Alternating(r, i) == p;
    }
  }

  lemma OneOfEach(p: Pos)
    requires 1 <= p <= 200
    ensures AsOften(TwoRouters(), Alternating, p)
  {
    var s := TwoRouters();
    var r := s.owner[p];
    var vs: seq<Pos> := Virtual(Alternating, r, VIRTUAL_NODES);
    NoCollisions();
    VirtualDistinct(Alternating, {1, 2}, r);
    DistinctCount(vs, p);
    DistinctCount(s.positions, p);
    OwnsHalf(r, p);
    VirtualMembers(Alternating, r, p);
    assert s.positions[p - 1] == p;
    assert p in s.positions && p in multiset(s.positions) && p in multiset(vs);
  }

  lemma ListedIffOwned(p: Pos)
    ensures p in TwoRouters().positions <==> p in TwoRouters().owner
  {
    var s := TwoRouters();
    if p in s.owner { assert s.positions[p - 1] == p; }
  }

  lemma OwnedRight(p: Pos)
    requires p in TwoRouters().owner
    ensures var s := TwoRouters();
            s.owner[p] in s.routers && Owns(Alternating, s.owner[p], p) && AsOften(s, Alternating, p)
  {
    OwnsHalf(TwoRouters().owner[p], p);
    OneOfEach(p);
  }

  lemma InOrder()
    ensures SortedBy(TwoRouters().positions, Leq)
  {
  }

  lemma AllListed()
    ensures forall p :: p in TwoRouters().positions <==> p in TwoRouters().owner
  {
    forall p ensures p in TwoRouters().positions <==> p in TwoRouters().owner { ListedIffOwned(p); }
  }

  lemma AllOwnedRight()
    ensures var s := TwoRouters();
            && (forall p | p in s.owner :: s.owner[p] in s.routers && Owns(Alternating, s.owner[p], p))
            && (forall p | p in s.owner :: AsOften(s, Alternating, p))
  {
    forall p | p in TwoRouters().owner
      ensures var s := TwoRouters();
              s.owner[p] in s.routers && Owns(Alternating, s.owner[p], p) && AsOften(s, Alternating, p)
    {
      OwnedRight(p);
    }
  }

  lemma AllThere()
    ensures var s := TwoRouters();
            forall r, p | r in s.routers && Owns(Alternating, r, p) :: p in s.owner && s.owner[p] == r
  {
    var s := TwoRouters();
    forall r, p | r in s.routers && Owns(Alternating, r, p) ensures p in s.owner && s.owner[p] == r {
      OwnsHalf(r, p);
    }
  }

  lemma TwoRoutersCanonical()
    ensures Canonical(TwoRouters(), Alternating)
  {
    InOrder();
    AllListed();
    AllOwnedRight();
    AllThere();
  }

  lemma JoinedCanonical()
    ensures var s := Evolve(Alternating, [Join(1), Join(2)]); Canonical(s, Alternating) && s.routers == {1, 2}
  {
    var ops := [Join(1), Join(2)];
    NoCollisions();
    assert Named(ops) <= {1, 2};
    EvolveCanonical(Alternating, ops, {1, 2});
    assert ops[..1] == [Join(1)] && [Join(1)][..0] == [];
    assert Current([Join(1)]) == Current([]) + {1};
    assert Current(ops) == Current([Join(1)]) + {2};
  }

  /** It is the ring two joins make. */
  lemma TwoRoutersJoined()
    ensures Evolve(Alternating, [Join(1), Join(2)]) == TwoRouters()
  {
    JoinedCanonical();
    TwoRoutersCanonical();
    CanonicalUnique(Evolve(Alternating, [Join(1), Join(2)]), TwoRouters(), Alternating);
  }

  /** What matters of it below: its ends, and who owns its first positions. */
  ghost predicate Looks(s: RingState)
  {
    && SortedBy(s.positions, Leq) && s.routers == {1, 2}
    && |s.positions| == 200
    && s.positions[0] == 1 && s.positions[1] == 2 && s.positions[2] == 3 && s.positions[199] == 200
    && Lookup(s.owner, 1) == 1 && Lookup(s.owner, 2) == 2 && Lookup(s.owner, 3) == 1
  }

  lemma JoinedLooks()
    ensures Looks(Evolve(Alternating, [Join(1), Join(2)]))
  {
    TwoRoutersJoined();
  }

  lemma Place(order: seq<Id>, k: nat)
    requires k < |order|
    ensures Places(order, AtThousand)[k] == 1000
  {
    assert Places(order, AtThousand)[k] == AtThousand(order[k]);
  }

  lemma FirstIndex(s: RingState, order: seq<Id>)
    requires Looks(s) && order != []
    ensures PosIndex(s.positions, Places(order, AtThousand), 0) == 1
  {
    Place(order, 0);
  }

  lemma FirstPast(s: RingState, order: seq<Id>)
    requires Looks(s) && order != []
    ensures RouterOf(s, order, AtThousand, 0) == 2
  {
    FirstIndex(s, order);
  }

  lemma SecondPast(s: RingState, order: seq<Id>)
    requires Looks(s) && |order| >= 2
    ensures RouterOf(s, order, AtThousand, 1) == 1
  {
    FirstIndex(s, order);
    Place(order, 1);
    Advance(s.positions, Places(order, AtThousand), 1);
  }

  lemma Advance(positions: seq<Pos>, nodes: seq<Pos>, k: nat)
    requires 0 < k < |nodes| && positions != []
    requires var i := PosIndex(positions, nodes, k - 1); i + 1 < |positions| && positions[i] < nodes[k]
    ensures PosIndex(positions, nodes, k) == PosIndex(positions, nodes, k - 1) + 1
  {
  }

  lemma SuccessorPast(s: RingState)
    requires Looks(s)
    ensures Lookup(s.owner, s.positions[Successor(s.positions, 1000)]) == 1
  {
    RankSplits(s.positions, 1000, 199);
  }

  /** The first node past the last position goes to router 2, its successor is a position of
      router 1. */
  lemma NotTheSuccessor()
    ensures var s := Evolve(Alternating, [Join(1), Join(2)]);
            && s.positions != []
            && RouterOf(s, [7], AtThousand, 0) == 2
            && Lookup(s.owner, s.positions[Successor(s.positions, 1000)]) == 1
  {
    JoinedLooks();
    FirstPast(Evolve(Alternating, [Join(1), Join(2)]), [7]);
    SuccessorPast(Evolve(Alternating, [Join(1), Join(2)]));
  }

  lemma TiedOn<Url(!new)>(s: RingState, nodes: map<Id, Url>)
    requires Looks(s) && nodes.Keys == {7, 8}
    ensures IsOrder([7, 8], AtThousand, nodes)
    ensures RouterOf(s, [7, 8], AtThousand, 0) == 2 && RouterOf(s, [7, 8], AtThousand, 1) == 1
    ensures exists answers :: AreAnswers(s, AtThousand, nodes, answers) && !Partitions(nodes, answers)
  {
    var order := [7, 8];
    FirstPast(s, order);
    SecondPast(s, order);
    forall n ensures n in order <==> n in nodes {
      assert n in nodes <==> n in nodes.Keys;
    }
    assert !TiesTogether(s, order, AtThousand);
    HealthcheckPartition(s, AtThousand, nodes, order);
  }

  /** Two nodes there are tied and go to different routers, so there are queries that find one of
      them twice. */
  lemma TiedNodesApart<Url(!new)>(nodes: map<Id, Url>)
    requires nodes.Keys == {7, 8}
    ensures var s := Evolve(Alternating, [Join(1), Join(2)]);
            && s.positions != []
            && IsOrder([7, 8], AtThousand, nodes)
            && RouterOf(s, [7, 8], AtThousand, 0) == 2 && RouterOf(s, [7, 8], AtThousand, 1) == 1
            && exists answers :: AreAnswers(s, AtThousand, nodes, answers) && !Partitions(nodes, answers)
  {
    JoinedLooks();
    TiedOn(Evolve(Alternating, [Join(1), Join(2)]), nodes);
  }
}
