/** How queryHealthcheckURLs (router/ring.go) deals compute nodes out to the routers of a ring. */
module RingDealing {
  import opened Ring
  import opened Sequences
  import opened Sorting

  /** The position index the k-th node in order gets: one step forward at most, and back to
      the start past the end. */
  function PosIndex(positions: seq<Pos>, nodes: seq<Pos>, k: nat): (i: nat)
    requires positions != [] && k < |nodes|
    ensures i < |positions|
  {
    var i := if k == 0 then 0 else PosIndex(positions, nodes, k - 1);
    var j := if positions[i] < nodes[k] then i + 1 else i;
    if j == |positions| then 0 else j
  }

  /** The nodes in the order they are dealt out. */
  ghost predicate IsOrder<Url>(order: seq<Id>, npos: Id -> Pos, nodes: map<Id, Url>)
  {
    && (forall i, j | 0 <= i < j < |order| :: npos(order[i]) <= npos(order[j]))
    && Distinct(order)
    && forall n :: n in order <==> n in nodes
  }

  function Places(order: seq<Id>, npos: Id -> Pos): (ps: seq<Pos>)
  {
    seq(|order|, k requires 0 <= k < |order| => npos(order[k]))
  }

  /** The router the k-th node goes to. */
  function RouterOf(s: RingState, order: seq<Id>, npos: Id -> Pos, k: nat): (r: Id)
    requires s.positions != [] && k < |order|
  {
    Lookup(s.owner, s.positions[PosIndex(s.positions, Places(order, npos), k)])
  }

  /** What a query for router r over the first n nodes has to give. */
  ghost predicate Deals<Url>(s: RingState, order: seq<Id>, npos: Id -> Pos, nodes: map<Id, Url>,
                             r: Id, n: nat, out: map<Id, Url>)
    requires s.positions != [] && n <= |order| && forall x | x in order :: x in nodes
  {
    && (forall x | x in out :: x in nodes && out[x] == nodes[x])
    && (forall x | x in out :: exists k :: 0 <= k < n && order[k] == x && RouterOf(s, order, npos, k) == r)
    && (forall k | 0 <= k < n && RouterOf(s, order, npos, k) == r :: order[k] in out)
  }

  /** out is an answer to the query for r: some order of the nodes deals it out. */
  ghost predicate IsAnswer<Url>(s: RingState, npos: Id -> Pos, nodes: map<Id, Url>, r: Id, out: map<Id, Url>)
  {
    if s.positions == [] then out == map[]
    else exists order :: IsOrder(order, npos, nodes) && Deals(s, order, npos, nodes, r, |order|, out)
  }

  /** Distinct positions leave only one order. */
  lemma OrderUnique<Url>(a: seq<Id>, b: seq<Id>, npos: Id -> Pos, nodes: map<Id, Url>)
    requires IsOrder(a, npos, nodes) && IsOrder(b, npos, nodes)
    requires forall m, n | m in nodes && n in nodes && npos(m) == npos(n) :: m == n
    ensures a == b
  {
    forall i, j | 0 <= i < j < |a| ensures npos(a[i]) < npos(a[j]) {
      assert a[i] in nodes && a[j] in nodes;
    }
    forall i, j | 0 <= i < j < |b| ensures npos(b[i]) < npos(b[j]) {
      assert b[i] in nodes && b[j] in nodes;
    }
    AscendingKeys(a, b, npos);
  }

  lemma {:induction false} AscendingKeys(a: seq<Id>, b: seq<Id>, npos: Id -> Pos)
    requires forall i, j | 0 <= i < j < |a| :: npos(a[i]) < npos(a[j])
    requires forall i, j | 0 <= i < j < |b| :: npos(b[i]) < npos(b[j])
    requires forall n :: n in a <==> n in b
    ensures a == b
  {
    assert b != [] ==> b[0] in a;
    if a != [] {
      assert a[0] in b && b[0] in a;
      assert a[0] == b[0];
      forall n ensures n in a[1..] <==> n in b[1..] {
        assert n in a <==> n == a[0] || n in a[1..];
        assert n in b <==> n == b[0] || n in b[1..];
      }
      AscendingKeys(a[1..], b[1..], npos);
      assert a == [a[0]] + a[1..] && b == [b[0]] + b[1..];
    }
  }

  // ---------- Health checks are partitioned ----------

  lemma {:induction false} PlacesUnique(a: seq<Id>, b: seq<Id>, npos: Id -> Pos)
    requires forall i, j | 0 <= i < j < |a| :: npos(a[i]) <= npos(a[j])
    requires forall i, j | 0 <= i < j < |b| :: npos(b[i]) <= npos(b[j])
    requires multiset(a) == multiset(b)
    ensures Places(a, npos) == Places(b, npos)
  {
    PlacesSorted(a, npos);
    PlacesSorted(b, npos);
    PlacesPermutation(a, b, npos);
    SortedUnique(Places(a, npos), Places(b, npos), Leq);
  }

  lemma PlacesSorted(a: seq<Id>, npos: Id -> Pos)
    requires forall i, j | 0 <= i < j < |a| :: npos(a[i]) <= npos(a[j])
    ensures SortedBy(Places(a, npos), Leq)
  {
  }

  lemma PlacesConcat(a: seq<Id>, b: seq<Id>, npos: Id -> Pos)
    ensures multiset(Places(a + b, npos)) == multiset(Places(a, npos)) + multiset(Places(b, npos))
  {
    assert Places(a + b, npos) == Places(a, npos) + Places(b, npos);
  }

  lemma PlacesWithout(s: seq<Id>, k: nat, npos: Id -> Pos)
    requires k < |s|
    ensures multiset(s) == multiset(Without(s, k)) + multiset{s[k]}
    ensures multiset(Places(s, npos)) == multiset(Places(Without(s, k), npos)) + multiset{npos(s[k])}
  {
    var front, back := s[..k], s[k + 1..];
    assert s == front + ([s[k]] + back);
    PlacesConcat(front, [s[k]] + back, npos);
    PlacesConcat([s[k]], back, npos);
    PlacesConcat(front, back, npos);
    assert Places([s[k]], npos) == [npos(s[k])];
  }

  lemma {:induction false} PlacesPermutation(a: seq<Id>, b: seq<Id>, npos: Id -> Pos)
    requires multiset(a) == multiset(b)
    ensures multiset(Places(a, npos)) == multiset(Places(b, npos))
    decreases |a|
  {
    Members(a, b);
    if a != [] {
      assert a[0] in b;
      var k :| 0 <= k < |b| && b[k] == a[0];
      PlacesWithout(a, 0, npos);
      PlacesWithout(b, k, npos);
      Cancel(multiset(Without(a, 0)), multiset(Without(b, k)), a[0]);
      PlacesPermutation(Without(a, 0), Without(b, k), npos);
    }
  }

  lemma {:induction false} SameMembers(a: seq<Id>, b: seq<Id>)
    requires Distinct(a) && Distinct(b) && forall n :: n in a <==> n in b
    ensures multiset(a) == multiset(b)
  {
    forall n: Id ensures multiset(a)[n] == multiset(b)[n] {
      DistinctCount(a, n);
      DistinctCount(b, n);
      assert n in a <==> n in multiset(a);
      assert n in b <==> n in multiset(b);
    }
  }

  /** All orders of the nodes have the same positions, so the k-th node goes to the same router in
      each, whichever node it is. */
  lemma OrdersDealAlike<Url>(s: RingState, a: seq<Id>, b: seq<Id>, npos: Id -> Pos, nodes: map<Id, Url>, k: nat)
    requires IsOrder(a, npos, nodes) && IsOrder(b, npos, nodes) && s.positions != [] && k < |a|
    ensures |a| == |b| && npos(a[k]) == npos(b[k]) && RouterOf(s, a, npos, k) == RouterOf(s, b, npos, k)
  {
    SameMembers(a, b);
    PlacesUnique(a, b, npos);
    assert |Places(a, npos)| == |a| && |Places(b, npos)| == |b|;
    assert Places(a, npos)[k] == npos(a[k]) && Places(b, npos)[k] == npos(b[k]);
  }

  /** Nodes at the same position go to the same router. */
  ghost predicate TiesTogether(s: RingState, order: seq<Id>, npos: Id -> Pos)
    requires s.positions != []
  {
    forall k, l | 0 <= k < l < |order| && npos(order[k]) == npos(order[l]) ::
      RouterOf(s, order, npos, k) == RouterOf(s, order, npos, l)
  }

  /** Every node goes to a router of the ring. A position that has lost its owner sends it to the nil
      router, and one left behind to a router that is gone. */
  ghost predicate ToMembers(s: RingState, order: seq<Id>, npos: Id -> Pos)
    requires s.positions != []
  {
    forall k | 0 <= k < |order| :: RouterOf(s, order, npos, k) in s.routers
  }

  ghost predicate AreAnswers<Url>(s: RingState, npos: Id -> Pos, nodes: map<Id, Url>, answers: map<Id, map<Id, Url>>)
  {
    answers.Keys == s.routers && forall r | r in s.routers :: IsAnswer(s, npos, nodes, r, answers[r])
  }

  /** Every node is in exactly one answer, under its own address. */
  ghost predicate Partitions<Url>(nodes: map<Id, Url>, answers: map<Id, map<Id, Url>>)
  {
    && (forall n | n in nodes :: exists r :: r in answers && n in answers[r] && answers[r][n] == nodes[n])
    && (forall r, q | r in answers && q in answers && r != q :: answers[r].Keys !! answers[q].Keys)
    && (forall r | r in answers :: answers[r].Keys <= nodes.Keys)
  }

  /** With ties together, what some order deals out any order does. */
  lemma DealsAnyOrder<Url>(s: RingState, a: seq<Id>, b: seq<Id>, npos: Id -> Pos, nodes: map<Id, Url>,
                           r: Id, out: map<Id, Url>)
    requires IsOrder(a, npos, nodes) && IsOrder(b, npos, nodes) && s.positions != [] && TiesTogether(s, b, npos)
    requires Deals(s, a, npos, nodes, r, |a|, out)
    ensures Deals(s, b, npos, nodes, r, |b|, out)
  {
    forall k, l | 0 <= k < |a| && 0 <= l < |b| && a[k] == b[l]
      ensures RouterOf(s, a, npos, k) == RouterOf(s, b, npos, l)
    {
      OrdersDealAlike(s, a, b, npos, nodes, k);
      assert npos(b[k]) == npos(b[l]);
    }
    forall x | x in out ensures exists l :: 0 <= l < |b| && b[l] == x && RouterOf(s, b, npos, l) == r {
      var k :| 0 <= k < |a| && a[k] == x && RouterOf(s, a, npos, k) == r;
      assert x in b;
      var l :| 0 <= l < |b| && b[l] == x;
    }
    forall l | 0 <= l < |b| && RouterOf(s, b, npos, l) == r ensures b[l] in out {
      assert b[l] in a;
      var k :| 0 <= k < |a| && a[k] == b[l];
    }
  }

  lemma TiesTogetherPartition<Url>(s: RingState, npos: Id -> Pos, nodes: map<Id, Url>,
                                   order: seq<Id>, answers: map<Id, map<Id, Url>>)
    requires s.positions != [] && IsOrder(order, npos, nodes)
    requires TiesTogether(s, order, npos) && ToMembers(s, order, npos) && AreAnswers(s, npos, nodes, answers)
    ensures Partitions(nodes, answers)
  {
    forall r | r in s.routers ensures Deals(s, order, npos, nodes, r, |order|, answers[r]) {
      assert IsAnswer(s, npos, nodes, r, answers[r]);
      var o :| IsOrder(o, npos, nodes) && Deals(s, o, npos, nodes, r, |o|, answers[r]);
      DealsAnyOrder(s, o, order, npos, nodes, r, answers[r]);
    }
    forall n | n in nodes ensures exists r :: r in answers && n in answers[r] && answers[r][n] == nodes[n] {
      var k :| 0 <= k < |order| && order[k] == n;
      var r := RouterOf(s, order, npos, k);
      assert n in answers[r];
    }
    forall r, q | r in answers && q in answers && r != q ensures answers[r].Keys !! answers[q].Keys {
      forall n | n in answers[r] ensures n !in answers[q] {
        if n in answers[q] { OneRouterEach(s, order, npos, nodes, r, answers[r], q, answers[q], n); }
      }
    }
  }

  ghost predicate GoesTo(s: RingState, order: seq<Id>, npos: Id -> Pos, n: Id, r: Id)
    requires s.positions != []
  {
    exists k :: 0 <= k < |order| && order[k] == n && RouterOf(s, order, npos, k) == r
  }

  /** The answer an order gives. */
  ghost function Dealt<Url>(s: RingState, order: seq<Id>, npos: Id -> Pos, nodes: map<Id, Url>, r: Id)
    : (out: map<Id, Url>)
    requires s.positions != []
  {
    map n | n in nodes && GoesTo(s, order, npos, n, r) :: nodes[n]
  }

  lemma DealtIsAnswer<Url>(s: RingState, order: seq<Id>, npos: Id -> Pos, nodes: map<Id, Url>, r: Id)
    requires s.positions != [] && IsOrder(order, npos, nodes)
    ensures IsAnswer(s, npos, nodes, r, Dealt(s, order, npos, nodes, r))
  {
    var out := Dealt(s, order, npos, nodes, r);
    forall k | 0 <= k < |order| && RouterOf(s, order, npos, k) == r ensures order[k] in out {
      assert GoesTo(s, order, npos, order[k], r);
    }
    assert Deals(s, order, npos, nodes, r, |order|, out);
  }

  lemma SwapTied<Url>(order: seq<Id>, npos: Id -> Pos, nodes: map<Id, Url>, k: nat, l: nat)
    requires IsOrder(order, npos, nodes) && k < l < |order| && npos(order[k]) == npos(order[l])
    ensures IsOrder(Swapped(order, k, l), npos, nodes)
  {
    var other := Swapped(order, k, l);
    SwappedPermutes(order, k, l);
    DistinctPermutation(other, order);
    Members(other, order);
  }

  /** The answers when all routers but q find one order, and q another. */
  ghost function Mixed<Url>(s: RingState, order: seq<Id>, other: seq<Id>, npos: Id -> Pos, nodes: map<Id, Url>,
                            q: Id): (answers: map<Id, map<Id, Url>>)
    requires s.positions != []
  {
    map x | x in s.routers :: Dealt(s, if x == q then other else order, npos, nodes, x)
  }

  lemma MixedAreAnswers<Url>(s: RingState, order: seq<Id>, other: seq<Id>, npos: Id -> Pos, nodes: map<Id, Url>, q: Id)
    requires s.positions != [] && IsOrder(order, npos, nodes) && IsOrder(other, npos, nodes)
    ensures AreAnswers(s, npos, nodes, Mixed(s, order, other, npos, nodes, q))
  {
    var answers := Mixed(s, order, other, npos, nodes, q);
    forall x | x in s.routers ensures IsAnswer(s, npos, nodes, x, answers[x]) {
      DealtIsAnswer(s, if x == q then other else order, npos, nodes, x);
    }
  }

  lemma FoundTwice<Url>(nodes: map<Id, Url>, answers: map<Id, map<Id, Url>>, r: Id, q: Id, n: Id)
    requires r in answers && q in answers && r != q && n in answers[r] && n in answers[q]
    ensures !Partitions(nodes, answers)
  {
    assert n in answers[r].Keys * answers[q].Keys;
  }

  /** The k-th of two tied nodes is found by its own router and, with the two exchanged, by the
      other's. */
  lemma TiesApartOverlap<Url>(s: RingState, npos: Id -> Pos, nodes: map<Id, Url>, order: seq<Id>, k: nat, l: nat)
    returns (answers: map<Id, map<Id, Url>>)
    requires s.positions != [] && IsOrder(order, npos, nodes) && ToMembers(s, order, npos)
    requires k < l < |order| && npos(order[k]) == npos(order[l])
    requires RouterOf(s, order, npos, k) != RouterOf(s, order, npos, l)
    ensures AreAnswers(s, npos, nodes, answers) && !Partitions(nodes, answers)
  {
    var r, q, other := RouterOf(s, order, npos, k), RouterOf(s, order, npos, l), Swapped(order, k, l);
    SwapTied(order, npos, nodes, k, l);
    answers := Mixed(s, order, other, npos, nodes, q);
    MixedAreAnswers(s, order, other, npos, nodes, q);
    assert GoesTo(s, order, npos, order[k], r);
    OrdersDealAlike(s, order, other, npos, nodes, l);
    assert GoesTo(s, other, npos, other[l], q);
    FoundTwice(nodes, answers, r, q, order[k]);
  }

  /** A node that goes to no member is found by nobody. */
  lemma StrayIsMissed<Url>(s: RingState, npos: Id -> Pos, nodes: map<Id, Url>, order: seq<Id>, k: nat)
    returns (answers: map<Id, map<Id, Url>>)
    requires s.positions != [] && IsOrder(order, npos, nodes)
    requires k < |order| && RouterOf(s, order, npos, k) !in s.routers
    ensures AreAnswers(s, npos, nodes, answers) && !Partitions(nodes, answers)
  {
    var stray := RouterOf(s, order, npos, k);
    answers := Mixed(s, order, order, npos, nodes, stray);
    MixedAreAnswers(s, order, order, npos, nodes, stray);
    forall r | r in answers ensures order[k] !in answers[r] {
      forall l | 0 <= l < |order| && order[l] == order[k] ensures RouterOf(s, order, npos, l) != r {
        assert l == k;
      }
    }
    assert order[k] in nodes;
  }

  lemma NoPositionsNoAnswer<Url>(s: RingState, npos: Id -> Pos, nodes: map<Id, Url>, order: seq<Id>)
    returns (answers: map<Id, map<Id, Url>>)
    requires s.positions == [] && IsOrder(order, npos, nodes) && order != []
    ensures AreAnswers(s, npos, nodes, answers) && !Partitions(nodes, answers)
  {
    answers := map r | r in s.routers :: map[];
    assert order[0] in nodes;
  }

  lemma NoNodesPartition<Url>(s: RingState, npos: Id -> Pos, nodes: map<Id, Url>, answers: map<Id, map<Id, Url>>)
    requires IsOrder([], npos, nodes) && AreAnswers(s, npos, nodes, answers)
    ensures Partitions(nodes, answers)
  {
    forall r | r in answers ensures answers[r].Keys == {} {
      assert IsAnswer(s, npos, nodes, r, answers[r]);
      forall n | n in answers[r] ensures n in [] {
        assert n in nodes;
      }
    }
  }

  /** There is nothing to deal out, or every node goes to one member, together with those tied with
      it. */
  ghost predicate DealtWhole(s: RingState, order: seq<Id>, npos: Id -> Pos)
  {
    order == [] || (s.positions != [] && TiesTogether(s, order, npos) && ToMembers(s, order, npos))
  }

  /** Health checks are partitioned, on any ring: whatever orders of the nodes the routers find,
      every node is in the answer of exactly one of them, exactly if nodes at the same position go
      to the same router and all nodes to routers of the ring. */
  lemma HealthcheckPartition<Url(!new)>(s: RingState, npos: Id -> Pos, nodes: map<Id, Url>, order: seq<Id>)
    requires IsOrder(order, npos, nodes)
    ensures DealtWhole(s, order, npos)
            <==> forall answers | AreAnswers(s, npos, nodes, answers) :: Partitions(nodes, answers)
  {
    if order == [] {
      forall answers | AreAnswers(s, npos, nodes, answers) ensures Partitions(nodes, answers) {
        NoNodesPartition(s, npos, nodes, answers);
      }
    } else if s.positions == [] {
      var answers := NoPositionsNoAnswer(s, npos, nodes, order);
    } else if !ToMembers(s, order, npos) {
      var k :| 0 <= k < |order| && RouterOf(s, order, npos, k) !in s.routers;
      var answers := StrayIsMissed(s, npos, nodes, order, k);
    } else if !TiesTogether(s, order, npos) {
      var k, l :| 0 <= k < l < |order| && npos(order[k]) == npos(order[l])
                  && RouterOf(s, order, npos, k) != RouterOf(s, order, npos, l);
      var answers := TiesApartOverlap(s, npos, nodes, order, k, l);
    } else {
      forall answers | AreAnswers(s, npos, nodes, answers) ensures Partitions(nodes, answers) {
        TiesTogetherPartition(s, npos, nodes, order, answers);
      }
    }
  }

  /** Nodes at distinct positions have no ties. */
  lemma DistinctPositionsTogether<Url>(s: RingState, npos: Id -> Pos, nodes: map<Id, Url>, order: seq<Id>)
    requires s.positions != [] && IsOrder(order, npos, nodes)
    requires forall m, n | m in nodes && n in nodes && npos(m) == npos(n) :: m == n
    ensures TiesTogether(s, order, npos)
  {
    forall k, l | 0 <= k < l < |order| ensures npos(order[k]) != npos(order[l]) {
      assert order[k] in nodes && order[l] in nodes;
    }
  }

  /** And the ring of at least one router sends nodes to routers of its own. */
  lemma CanonicalToMembers(s: RingState, vpos: (Id, nat) -> Pos, order: seq<Id>, npos: Id -> Pos)
    requires Canonical(s, vpos) && s.routers != {}
    ensures s.positions != [] && ToMembers(s, order, npos)
  {
    RingNotEmpty(s, vpos);
    forall k | 0 <= k < |order| ensures RouterOf(s, order, npos, k) in s.routers {
      OwnerIsMember(s, vpos, order, npos, k);
    }
  }

  lemma RingNotEmpty(s: RingState, vpos: (Id, nat) -> Pos)
    requires Canonical(s, vpos) && s.routers != {}
    ensures s.positions != []
  {
    var r :| r in s.routers;
    assert Owns(vpos, r, vpos(r, 0));
    assert vpos(r, 0) in s.owner;
    assert vpos(r, 0) in s.positions;
  }

  lemma OwnerIsMember(s: RingState, vpos: (Id, nat) -> Pos, order: seq<Id>, npos: Id -> Pos, k: nat)
    requires Canonical(s, vpos) && s.positions != [] && k < |order|
    ensures RouterOf(s, order, npos, k) in s.routers
  {
    var p := s.positions[PosIndex(s.positions, Places(order, npos), k)];
    assert p in s.positions;
    assert p in s.owner;
  }

  lemma OneRouterEach<Url>(s: RingState, order: seq<Id>, npos: Id -> Pos, nodes: map<Id, Url>,
                           r: Id, out: map<Id, Url>, q: Id, out': map<Id, Url>, n: Id)
    requires s.positions != [] && Distinct(order) && forall x | x in order :: x in nodes
    requires Deals(s, order, npos, nodes, r, |order|, out) && Deals(s, order, npos, nodes, q, |order|, out')
    requires n in out && n in out'
    ensures r == q
  {
    var k :| 0 <= k < |order| && order[k] == n && RouterOf(s, order, npos, k) == r;
    var l :| 0 <= l < |order| && order[l] == n && RouterOf(s, order, npos, l) == q;
  }

  // ---------- How the rule differs from the successor rule ----------

  /** How many positions lie before p. */
  function Rank(positions: seq<Pos>, p: Pos): (n: nat)
    ensures n <= |positions|
  {
    if positions == [] || positions[0] >= p then 0 else 1 + Rank(positions[1..], p)
  }

  /** The rule of a consistent-hashing ring: the first position not before p, or the first of
      all. */
  function Successor(positions: seq<Pos>, p: Pos): (i: nat)
    requires positions != []
  {
    if Rank(positions, p) == |positions| then 0 else Rank(positions, p)
  }

  lemma {:induction false} RankSplits(positions: seq<Pos>, p: Pos, i: nat)
    requires SortedBy(positions, Leq) && i < |positions|
    ensures positions[i] < p <==> i < Rank(positions, p)
  {
    if positions[0] < p && i > 0 { RankSplits(positions[1..], p, i - 1); }
  }

  lemma {:induction false} RankMonotone(positions: seq<Pos>, p: Pos, q: Pos)
    requires p <= q
    ensures Rank(positions, p) <= Rank(positions, q)
  {
    if positions != [] { RankMonotone(positions[1..], p, q); }
  }

  /** The least of k + 1 and of what the rank of each node up to the k-th allows. */
  ghost predicate IsReach(positions: seq<Pos>, nodes: seq<Pos>, k: nat, i: nat)
    requires k < |nodes|
  {
    && i <= k + 1
    && (forall j | 0 <= j <= k :: i <= Rank(positions, nodes[j]) + k - j)
    && (i == k + 1 || exists j :: 0 <= j <= k && i == Rank(positions, nodes[j]) + k - j)
  }

  /** The index in closed form, while no node is past the last position: nodes catch up with their
      rank by one position each. */
  lemma {:induction false} IndexIsReach(positions: seq<Pos>, nodes: seq<Pos>, k: nat)
    requires SortedBy(positions, Leq) && positions != [] && k < |nodes|
    requires forall i, j | 0 <= i < j < |nodes| :: nodes[i] <= nodes[j]
    requires Rank(positions, nodes[k]) < |positions|
    ensures IsReach(positions, nodes, k, PosIndex(positions, nodes, k))
  {
    var i := if k == 0 then 0 else PosIndex(positions, nodes, k - 1);
    RankSplits(positions, nodes[k], i);
    if k > 0 {
      RankMonotone(positions, nodes[k - 1], nodes[k]);
      IndexIsReach(positions, nodes, k - 1);
      assert i <= Rank(positions, nodes[k - 1]);
    }
    ReachGrows(positions, nodes, k, i);
  }

  lemma ReachGrows(positions: seq<Pos>, nodes: seq<Pos>, k: nat, i: nat)
    requires k < |nodes| && i <= Rank(positions, nodes[k])
    requires if k == 0 then i == 0 else IsReach(positions, nodes, k - 1, i)
    ensures IsReach(positions, nodes, k, if i < Rank(positions, nodes[k]) then i + 1 else i)
  {
    var i' := if i < Rank(positions, nodes[k]) then i + 1 else i;
    if i == Rank(positions, nodes[k]) {
      assert i' == Rank(positions, nodes[k]) + k - k;
    } else if k > 0 && i != k {
      var j :| 0 <= j <= k - 1 && i == Rank(positions, nodes[j]) + (k - 1) - j;
      assert i' == Rank(positions, nodes[j]) + k - j;
    }
  }

  lemma MovesOn(positions: seq<Pos>, nodes: seq<Pos>, k: nat)
    requires SortedBy(positions, Leq) && positions != [] && k < |nodes|
    requires Rank(positions, nodes[k]) == |positions|
    ensures var i := if k == 0 then 0 else PosIndex(positions, nodes, k - 1);
            PosIndex(positions, nodes, k) == if i + 1 == |positions| then 0 else i + 1
  {
    RankSplits(positions, nodes[k], if k == 0 then 0 else PosIndex(positions, nodes, k - 1));
  }

  lemma OneFurther(n: nat, rounds: nat, i: nat, size: nat) returns (rounds': nat)
    requires i < size && n == rounds * size + i
    ensures n + 1 == rounds' * size + if i + 1 == size then 0 else i + 1
  {
    rounds' := if i + 1 == size then rounds + 1 else rounds;
    assert (rounds + 1) * size == rounds * size + size;
  }

  /** From the first node past the last position on, every node gets the next index around the ring:
      start and what came since, less whole rounds. */
  lemma {:induction false} IndexPastEnd(positions: seq<Pos>, nodes: seq<Pos>, q: nat, k: nat) returns (rounds: nat)
    requires SortedBy(positions, Leq) && positions != [] && q <= k < |nodes|
    requires forall i, j | 0 <= i < j < |nodes| :: nodes[i] <= nodes[j]
    requires Rank(positions, nodes[q]) == |positions|
    ensures var start := if q == 0 then 0 else PosIndex(positions, nodes, q - 1);
            start + (k - q) + 1 == rounds * |positions| + PosIndex(positions, nodes, k)
    decreases k
  {
    var start := if q == 0 then 0 else PosIndex(positions, nodes, q - 1);
    var i := if k == 0 then 0 else PosIndex(positions, nodes, k - 1);
    rounds := 0;
    if q < k {
      rounds := IndexPastEnd(positions, nodes, q, k - 1);
      RankMonotone(positions, nodes[q], nodes[k]);
    }
    MovesOn(positions, nodes, k);
    rounds := OneFurther(start + (k - q), rounds, i, |positions|);
  }

  /** Node k is at most one position further than node k - 1, which is not past the last
      position. */
  predicate OneApart(positions: seq<Pos>, nodes: seq<Pos>, k: nat)
    requires k < |nodes|
  {
    var prev := if k == 0 then 0 else Rank(positions, nodes[k - 1]);
    |positions| == 1 || (prev < |positions| && Rank(positions, nodes[k]) <= prev + 1)
  }

  predicate GetsSuccessor(positions: seq<Pos>, nodes: seq<Pos>, k: nat)
    requires positions != [] && k < |nodes|
  {
    PosIndex(positions, nodes, k) == Successor(positions, nodes[k])
  }

  lemma NextSuccessor(positions: seq<Pos>, nodes: seq<Pos>, k: nat)
    requires SortedBy(positions, Leq) && positions != [] && k < |nodes|
    requires forall i, j | 0 <= i < j < |nodes| :: nodes[i] <= nodes[j]
    requires k > 0 ==> GetsSuccessor(positions, nodes, k - 1)
    ensures GetsSuccessor(positions, nodes, k) <==> OneApart(positions, nodes, k)
  {
    var i := if k == 0 then 0 else PosIndex(positions, nodes, k - 1);
    RankSplits(positions, nodes[k], i);
    if k > 0 { RankMonotone(positions, nodes[k - 1], nodes[k]); }
  }

  /** Nodes get the successor of their position exactly as long as they come at most one position
      apart and none but the last is past the end. */
  lemma {:induction false} SuccessorIffOneApart(positions: seq<Pos>, nodes: seq<Pos>, n: nat)
    requires SortedBy(positions, Leq) && positions != [] && n <= |nodes|
    requires forall i, j | 0 <= i < j < |nodes| :: nodes[i] <= nodes[j]
    ensures (forall k: nat | k < n :: GetsSuccessor(positions, nodes, k))
            <==> forall k: nat | k < n :: OneApart(positions, nodes, k)
  {
    if n > 0 {
      SuccessorIffOneApart(positions, nodes, n - 1);
      if n == 1 || GetsSuccessor(positions, nodes, n - 2) { NextSuccessor(positions, nodes, n - 1); }
    }
  }
}
