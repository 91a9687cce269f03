/** The router ring (router/ring.go): every router holds a hundred virtual positions, kept in a
    sorted list, and nodes are dealt out to routers along it.

    CRC32 is an arbitrary hash: vpos(r, i) is the position of virtual node i of router r, and
    npos(n) the position of a compute node. */
module Ring {
  import opened Sequences
  import opened Sorting

  type Id = nat
  type Pos = nat

  const VIRTUAL_NODES := 100
  const NIL: Id := 0 // what a lookup of a position nobody owns gives

  datatype RingState = RingState(routers: set<Id>, owner: map<Pos, Id>, positions: seq<Pos>)

  const EMPTY := RingState({}, map[], [])

  function Leq(a: Pos, b: Pos): (r: bool)
  {
    a <= b
  }

  function Lookup(owner: map<Pos, Id>, p: Pos): (r: Id)
  {
    if p in owner then owner[p] else NIL
  }

  function Virtual(vpos: (Id, nat) -> Pos, r: Id, n: nat): (ps: seq<Pos>)
  {
    seq(n, i requires i >= 0 => vpos(r, i))
  }

  function AddRouter(s: RingState, vpos: (Id, nat) -> Pos, r: Id): (s': RingState)
  {
    if r in s.routers then s
    else
      var vs := Virtual(vpos, r, VIRTUAL_NODES);
      RingState(s.routers + {r}, s.owner + map p | p in vs :: r, Sort(s.positions + vs, Leq))
  }

  /** The loop of removeRouter: the positions kept and the owners left. */
  function Sweep(positions: seq<Pos>, owner: map<Pos, Id>, r: Id): (res: (seq<Pos>, map<Pos, Id>))
  {
    if positions == [] then ([], owner)
    else
      var p := positions[0];
      if Lookup(owner, p) != r then
        var (ps, o) := Sweep(positions[1..], owner, r);
        ([p] + ps, o)
      else Sweep(positions[1..], owner - {p}, r)
  }

  function RemoveRouter(s: RingState, r: Id): (s': RingState)
  {
    if r !in s.routers then s
    else
      var (ps, o) := Sweep(s.positions, s.owner, r);
      RingState(s.routers - {r}, o, ps)
  }

  // ---------- The ring is a function of its routers ----------

  ghost predicate Owns(vpos: (Id, nat) -> Pos, r: Id, p: Pos)
  {
    exists i: nat :: i < VIRTUAL_NODES && vpos(r, i) == p
  }

  /** No two virtual nodes in play share a position. Those of the nil router may share theirs with
      each other: its id is what looking up a position nobody owns gives. */
  ghost predicate CollisionFree(vpos: (Id, nat) -> Pos, ids: set<Id>)
  {
    forall r, i: nat, r', i': nat ::
      r in ids && r' in ids && i < VIRTUAL_NODES && i' < VIRTUAL_NODES && vpos(r, i) == vpos(r', i')
      ==> r == r' && (i == i' || r == NIL)
  }

  /** The ring of its routers: all their positions in order, each as often as its owner has it. */
  ghost predicate Canonical(s: RingState, vpos: (Id, nat) -> Pos)
  {
    && SortedBy(s.positions, Leq)
    && (forall p :: p in s.positions <==> p in s.owner)
    && (forall p | p in s.owner :: s.owner[p] in s.routers && Owns(vpos, s.owner[p], p))
    && (forall r, p | r in s.routers && Owns(vpos, r, p) :: p in s.owner && s.owner[p] == r)
    && (forall p | p in s.owner :: AsOften(s, vpos, p))
  }

  ghost predicate AsOften(s: RingState, vpos: (Id, nat) -> Pos, p: Pos)
    requires p in s.owner
  {
    && multiset(s.positions)[p] == multiset(Virtual(vpos, s.owner[p], VIRTUAL_NODES))[p]
    && (s.owner[p] != NIL ==> multiset(s.positions)[p] == 1)
  }

  lemma OwnersAgree(s: RingState, t: RingState, vpos: (Id, nat) -> Pos)
    requires Canonical(s, vpos) && Canonical(t, vpos) && s.routers == t.routers
    ensures s.owner == t.owner
  {
    assert s.owner.Keys == t.owner.Keys;
  }

  lemma CountsAgree(s: RingState, t: RingState, vpos: (Id, nat) -> Pos, p: Pos)
    requires Canonical(s, vpos) && Canonical(t, vpos) && s.owner == t.owner
    ensures multiset(s.positions)[p] == multiset(t.positions)[p]
  {
    if p in s.owner {
      assert AsOften(s, vpos, p) && AsOften(t, vpos, p);
    } else {
      assert p !in s.positions && p !in t.positions;
    }
  }

  /** Two canonical rings over the same routers are the same ring. */
  lemma CanonicalUnique(s: RingState, t: RingState, vpos: (Id, nat) -> Pos)
    requires Canonical(s, vpos) && Canonical(t, vpos) && s.routers == t.routers
    ensures s == t
  {
    OwnersAgree(s, t, vpos);
    forall p: Pos ensures multiset(s.positions)[p] == multiset(t.positions)[p] {
      CountsAgree(s, t, vpos, p);
    }
    SortedUnique(s.positions, t.positions, Leq);
  }

  lemma {:induction false} DistinctCount<T>(s: seq<T>, x: T)
    requires Distinct(s)
    ensures multiset(s)[x] <= 1
  {
    if s != [] {
      HeadApart(s);
      DistinctCount(s[1..], x);
    }
  }

  lemma DistinctPermutation<T>(a: seq<T>, b: seq<T>)
    requires Distinct(b) && multiset(a) == multiset(b)
    ensures Distinct(a)
  {
    forall i, j | 0 <= i < j < |a| ensures a[i] != a[j] {
      var x := a[i];
      DistinctCount(b, x);
      assert a == a[..j] + a[j..];
      assert a[..j][i] == x && a[j..][0] == a[j];
      assert x in multiset(a[..j]);
    }
  }

  lemma VirtualMembers(vpos: (Id, nat) -> Pos, r: Id, p: Pos)
    ensures p in Virtual(vpos, r, VIRTUAL_NODES) <==> Owns(vpos, r, p)
  {
    var vs := Virtual(vpos, r, VIRTUAL_NODES);
    if i: nat :| i < VIRTUAL_NODES && vpos(r, i) == p { assert vs[i] == p; }
  }

  /** Where the position of a ring with one router more comes from. */
  lemma AddAsOften(s: RingState, vpos: (Id, nat) -> Pos, r: Id, p: Pos)
    requires Canonical(s, vpos) && CollisionFree(vpos, s.routers + {r}) && r !in s.routers
    requires p in AddRouter(s, vpos, r).owner
    ensures AsOften(AddRouter(s, vpos, r), vpos, p)
  {
    var s' := AddRouter(s, vpos, r);
    var vs: seq<Pos> := Virtual(vpos, r, VIRTUAL_NODES);
    var held: multiset<Pos>, added: multiset<Pos> := multiset(s.positions), multiset(vs);
    SortSorts(s.positions + vs, Leq);
    assert multiset(s'.positions) == held + added;
    if p in vs {
      NewPositionIsNew(s, vpos, r, p);
      if r != NIL {
        VirtualDistinct(vpos, s.routers + {r}, r);
        DistinctCount(vs, p);
      }
    } else {
      assert AsOften(s, vpos, p);
    }
  }

  lemma AddKeepsCanonical(s: RingState, vpos: (Id, nat) -> Pos, r: Id)
    requires Canonical(s, vpos) && CollisionFree(vpos, s.routers + {r})
    ensures Canonical(AddRouter(s, vpos, r), vpos)
    ensures AddRouter(s, vpos, r).routers == s.routers + {r}
  {
    if r !in s.routers {
      var s' := AddRouter(s, vpos, r);
      var vs := Virtual(vpos, r, VIRTUAL_NODES);
      forall p ensures p in vs <==> Owns(vpos, r, p) { VirtualMembers(vpos, r, p); }
      SortSorts(s.positions + vs, Leq);
      Members(s'.positions, s.positions + vs);
      forall q, p | q in s'.routers && Owns(vpos, q, p) ensures p in s'.owner && s'.owner[p] == q {
        if q != r && p in vs {
          NoSharedPosition(vpos, s.routers + {r}, q, r, p);
        }
      }
      forall p | p in s'.owner ensures AsOften(s', vpos, p) { AddAsOften(s, vpos, r, p); }
    }
  }

  lemma NoSharedPosition(vpos: (Id, nat) -> Pos, ids: set<Id>, q: Id, r: Id, p: Pos)
    requires CollisionFree(vpos, ids) && q in ids && r in ids && Owns(vpos, q, p) && Owns(vpos, r, p)
    ensures q == r
  {
    var i: nat :| i < VIRTUAL_NODES && vpos(q, i) == p;
    var j: nat :| j < VIRTUAL_NODES && vpos(r, j) == p;
  }

  lemma NewPositionIsNew(s: RingState, vpos: (Id, nat) -> Pos, r: Id, p: Pos)
    requires Canonical(s, vpos) && CollisionFree(vpos, s.routers + {r}) && r !in s.routers
    requires p in Virtual(vpos, r, VIRTUAL_NODES)
    ensures p !in s.positions
  {
    VirtualMembers(vpos, r, p);
    if p in s.positions { NoSharedPosition(vpos, s.routers + {r}, s.owner[p], r, p); }
  }

  lemma VirtualDistinct(vpos: (Id, nat) -> Pos, ids: set<Id>, r: Id)
    requires CollisionFree(vpos, ids) && r in ids && r != NIL
    ensures Distinct(Virtual(vpos, r, VIRTUAL_NODES))
  {
    var vs := Virtual(vpos, r, VIRTUAL_NODES);
    forall i, j | 0 <= i < j < |vs| ensures vs[i] != vs[j] {
      assert vs[i] == vpos(r, i) && vs[j] == vpos(r, j);
    }
  }

  /** Every position has an owner, and the positions of r are listed once; the nil router needs
      neither. */
  ghost predicate Sweepable(positions: seq<Pos>, owner: map<Pos, Id>, r: Id)
  {
    r != NIL ==>
      forall p | p in positions :: p in owner && (owner[p] == r ==> multiset(positions)[p] == 1)
  }

  lemma SweepableTail(positions: seq<Pos>, owner: map<Pos, Id>, r: Id)
    requires positions != [] && Sweepable(positions, owner, r)
    ensures Lookup(owner, positions[0]) != r ==> Sweepable(positions[1..], owner, r)
    ensures Lookup(owner, positions[0]) == r ==> Sweepable(positions[1..], owner - {positions[0]}, r)
    ensures Lookup(owner, positions[0]) == r != NIL ==> positions[0] !in positions[1..]
  {
    HeadApart(positions);
    var p0, tail := positions[0], positions[1..];
    forall p | p in tail ensures p in multiset(tail) && p in positions {}
    assert p0 in tail ==> multiset(positions)[p0] >= 2;
  }

  /** Sweeping drops exactly the positions of r, and their owners. */
  lemma {:induction false} SweepDrops(positions: seq<Pos>, owner: map<Pos, Id>, r: Id)
    requires Sweepable(positions, owner, r)
    ensures var (ps, o) := Sweep(positions, owner, r);
            && (forall p: Pos :: multiset(ps)[p] == if Lookup(owner, p) == r then 0 else multiset(positions)[p])
            && (forall p :: p in o <==> p in owner && !(p in positions && owner[p] == r))
            && (forall p | p in o :: o[p] == owner[p])
    decreases |positions|
  {
    if positions != [] {
      var p0, tail := positions[0], positions[1..];
      HeadApart(positions);
      SweepableTail(positions, owner, r);
      if Lookup(owner, p0) != r {
        SweepDrops(tail, owner, r);
      } else {
        SweepDrops(tail, owner - {p0}, r);
        if r != NIL { assert multiset(tail)[p0] == 0; }
      }
    }
  }

  lemma {:induction false} SweepSorted(positions: seq<Pos>, owner: map<Pos, Id>, r: Id)
    requires SortedBy(positions, Leq)
    ensures var ps := Sweep(positions, owner, r).0;
            SortedBy(ps, Leq) && forall p | p in ps :: p in positions
    decreases |positions|
  {
    if positions != [] {
      var p0, tail := positions[0], positions[1..];
      if Lookup(owner, p0) != r {
        SweepSorted(tail, owner, r);
        var ps := Sweep(tail, owner, r).0;
        forall p | p in ps ensures Leq(p0, p) {
          var i :| 0 <= i < |tail| && tail[i] == p;
          assert Leq(positions[0], positions[i + 1]);
        }
        ConsSorted(p0, ps, Leq);
      } else {
        SweepSorted(tail, owner - {p0}, r);
      }
    }
  }

  lemma CanonicalSweepable(s: RingState, vpos: (Id, nat) -> Pos, r: Id)
    requires Canonical(s, vpos)
    ensures Sweepable(s.positions, s.owner, r)
  {
    forall p | p in s.positions
      ensures p in s.owner && (s.owner[p] == r != NIL ==> multiset(s.positions)[p] == 1)
    {
      assert AsOften(s, vpos, p);
    }
  }

  lemma RemoveMembers(s: RingState, vpos: (Id, nat) -> Pos, r: Id, p: Pos)
    requires Canonical(s, vpos) && r in s.routers
    ensures var s' := RemoveRouter(s, r);
            && (p in s'.positions <==> p in s'.owner)
            && (p in s'.owner <==> p in s.owner && s.owner[p] != r)
            && (p in s'.owner ==> s'.owner[p] == s.owner[p])
  {
    var s' := RemoveRouter(s, r);
    CanonicalSweepable(s, vpos, r);
    SweepDrops(s.positions, s.owner, r);
    assert p in s'.positions <==> multiset(s'.positions)[p] > 0;
    assert p in s.positions <==> multiset(s.positions)[p] > 0;
  }

  lemma RemoveAsOften(s: RingState, vpos: (Id, nat) -> Pos, r: Id, p: Pos)
    requires Canonical(s, vpos) && r in s.routers && p in RemoveRouter(s, r).owner
    ensures AsOften(RemoveRouter(s, r), vpos, p)
  {
    RemoveMembers(s, vpos, r, p);
    CanonicalSweepable(s, vpos, r);
    SweepDrops(s.positions, s.owner, r);
    assert AsOften(s, vpos, p);
  }

  lemma RemoveKeepsCanonical(s: RingState, vpos: (Id, nat) -> Pos, r: Id)
    requires Canonical(s, vpos)
    ensures Canonical(RemoveRouter(s, r), vpos)
    ensures RemoveRouter(s, r).routers == s.routers - {r}
  {
    if r in s.routers {
      var s' := RemoveRouter(s, r);
      SweepSorted(s.positions, s.owner, r);
      forall p: Pos
        ensures && (p in s'.positions <==> p in s'.owner)
                && (p in s'.owner <==> p in s.owner && s.owner[p] != r)
                && (p in s'.owner ==> s'.owner[p] == s.owner[p])
      {
        RemoveMembers(s, vpos, r, p);
      }
      forall p | p in s'.owner ensures AsOften(s', vpos, p) { RemoveAsOften(s, vpos, r, p); }
    }
  }

  // ---------- Histories ----------

  datatype RingOp = Join(id: Id) | Leave(id: Id)

  function Evolve(vpos: (Id, nat) -> Pos, ops: seq<RingOp>): (s: RingState)
  {
    if ops == [] then EMPTY
    else
      ApplyOp(Evolve(vpos, ops[..|ops| - 1]), vpos, ops[|ops| - 1])
  }

  function Current(ops: seq<RingOp>): (ids: set<Id>)
  {
    if ops == [] then {}
    else
      match ops[|ops| - 1]
      case Join(r) => Current(ops[..|ops| - 1]) + {r}
      case Leave(r) => Current(ops[..|ops| - 1]) - {r}
  }

  function ApplyOp(s: RingState, vpos: (Id, nat) -> Pos, op: RingOp): (s': RingState)
  {
    match op
    case Join(r) => AddRouter(s, vpos, r)
    case Leave(r) => RemoveRouter(s, r)
  }

  lemma OneMore(vpos: (Id, nat) -> Pos, ops: seq<RingOp>, op: RingOp, more: seq<RingOp>)
    requires more == ops + [op]
    ensures Evolve(vpos, more) == ApplyOp(Evolve(vpos, ops), vpos, op)
    ensures Current(more) == if op.Join? then Current(ops) + {op.id} else Current(ops) - {op.id}
  {
    assert more[..|ops|] == ops;
  }

  function Named(ops: seq<RingOp>): (ids: set<Id>)
  {
    set i | 0 <= i < |ops| :: ops[i].id
  }

  lemma {:induction false} EvolveCanonical(vpos: (Id, nat) -> Pos, ops: seq<RingOp>, ids: set<Id>)
    requires CollisionFree(vpos, ids) && Named(ops) <= ids
    ensures Canonical(Evolve(vpos, ops), vpos)
    ensures Evolve(vpos, ops).routers == Current(ops) <= ids
  {
    if ops != [] {
      var init := ops[..|ops| - 1];
      assert Named(init) <= ids && ops[|ops| - 1].id in ids by {
        forall x | x in Named(init) ensures x in Named(ops) {
          var i :| 0 <= i < |init| && init[i].id == x;
          assert ops[i].id == x;
        }
        assert ops[|ops| - 1].id in Named(ops);
      }
      EvolveCanonical(vpos, init, ids);
      match ops[|ops| - 1]
      case Join(r) =>
        CollisionFreeSubset(vpos, ids, Evolve(vpos, init).routers + {r});
        AddKeepsCanonical(Evolve(vpos, init), vpos, r);
      case Leave(r) => RemoveKeepsCanonical(Evolve(vpos, init), vpos, r);
    }
  }

  lemma CollisionFreeSubset(vpos: (Id, nat) -> Pos, ids: set<Id>, some: set<Id>)
    requires CollisionFree(vpos, ids) && some <= ids
    ensures CollisionFree(vpos, some)
  {
  }

  /** History independence: routers that end up in the ring determine it, whatever joins and
      leaves led there. So joining twice is joining once, and a join undone by a leave leaves
      no trace. */
  lemma HistoryIndependence(vpos: (Id, nat) -> Pos, ops: seq<RingOp>, ops': seq<RingOp>)
    requires CollisionFree(vpos, Named(ops) + Named(ops'))
    requires Current(ops) == Current(ops')
    ensures Evolve(vpos, ops) == Evolve(vpos, ops')
  {
    EvolveCanonical(vpos, ops, Named(ops) + Named(ops'));
    EvolveCanonical(vpos, ops', Named(ops) + Named(ops'));
    CanonicalUnique(Evolve(vpos, ops), Evolve(vpos, ops'), vpos);
  }

  /** A router that is already there can join again, and one that was not can join and leave,
      without a trace. */
  lemma JoinsLeaveNoTrace(vpos: (Id, nat) -> Pos, ops: seq<RingOp>, r: Id)
    requires CollisionFree(vpos, Named(ops) + {r})
    ensures r in Current(ops) ==> Evolve(vpos, ops + [Join(r)]) == Evolve(vpos, ops)
    ensures r !in Current(ops) ==> Evolve(vpos, ops + [Join(r)] + [Leave(r)]) == Evolve(vpos, ops)
  {
    var once, back := ops + [Join(r)], ops + [Join(r)] + [Leave(r)];
    OneMore(vpos, ops, Join(r), once);
    OneMore(vpos, once, Leave(r), back);
    forall x | x in Named(once) + Named(back) ensures x in Named(ops) + {r} {
      if x != r {
        var i :| 0 <= i < |back| && back[i].id == x;
        assert ops[i].id == x;
      }
    }
    CollisionFreeSubset(vpos, Named(ops) + {r}, Named(once) + Named(ops));
    CollisionFreeSubset(vpos, Named(ops) + {r}, Named(back) + Named(ops));
    if r in Current(ops) { HistoryIndependence(vpos, once, ops); } else { HistoryIndependence(vpos, back, ops); }
  }

  // ---------- What a collision does ----------

  lemma {:induction false} SweepForgets(positions: seq<Pos>, owner: map<Pos, Id>, r: Id, p: Pos)
    requires p in positions && p in owner && owner[p] == r
    ensures p !in Sweep(positions, owner, r).1
    decreases |positions|
  {
    if positions[0] == p {
      SweepNeverAdds(positions[1..], owner - {p}, r, p);
    } else if Lookup(owner, positions[0]) != r {
      SweepForgets(positions[1..], owner, r, p);
    } else {
      SweepForgets(positions[1..], owner - {positions[0]}, r, p);
    }
  }

  lemma {:induction false} SweepNeverAdds(positions: seq<Pos>, owner: map<Pos, Id>, r: Id, p: Pos)
    requires p !in owner
    ensures p !in Sweep(positions, owner, r).1
    ensures r != NIL && p in positions ==> p in Sweep(positions, owner, r).0
    decreases |positions|
  {
    if positions != [] {
      if Lookup(owner, positions[0]) != r {
        SweepNeverAdds(positions[1..], owner, r, p);
      } else {
        SweepNeverAdds(positions[1..], owner - {positions[0]}, r, p);
      }
    }
  }

  /** A position listed twice is only dropped once. */
  lemma {:induction false} SweepLeavesDouble(positions: seq<Pos>, owner: map<Pos, Id>, r: Id, i: nat, j: nat)
    requires i < j < |positions| && positions[i] == positions[j] && r != NIL
    ensures positions[i] in Sweep(positions, owner, r).0
    decreases |positions|
  {
    var p := positions[i];
    assert p == positions[1..][j - 1];
    var owner' := if Lookup(owner, positions[0]) != r then owner else owner - {positions[0]};
    if p !in owner' {
      SweepNeverAdds(positions[1..], owner', r, p);
    } else if i > 0 {
      SweepLeavesDouble(positions[1..], owner', r, i - 1, j - 1);
    }
  }

  lemma SortKeepsDouble(ps: seq<Pos>, i: nat, j: nat) returns (k: nat, l: nat)
    requires i < j < |ps| && ps[i] == ps[j]
    ensures k < l < |Sort(ps, Leq)| && Sort(ps, Leq)[k] == Sort(ps, Leq)[l]
  {
    SortSorts(ps, Leq);
    if Distinct(Sort(ps, Leq)) {
      DistinctPermutation(ps, Sort(ps, Leq));
      assert false;
    }
    k, l :| 0 <= k < l < |Sort(ps, Leq)| && Sort(ps, Leq)[k] == Sort(ps, Leq)[l];
  }

  /** A router that collides with itself does not leave cleanly. */
  lemma OwnCollisionLingers(vpos: (Id, nat) -> Pos, r: Id, i: nat, j: nat)
    requires r != NIL && i < j < VIRTUAL_NODES && vpos(r, i) == vpos(r, j)
    ensures Evolve(vpos, [Join(r), Leave(r)]) != Evolve(vpos, [])
    ensures Current([Join(r), Leave(r)]) == Current([])
  {
    OneMore(vpos, [], Join(r), [Join(r)]);
    OneMore(vpos, [Join(r)], Leave(r), [Join(r), Leave(r)]);
    var vs := Virtual(vpos, r, VIRTUAL_NODES);
    assert [] + vs == vs;
    var s := Evolve(vpos, [Join(r)]);
    assert s.positions == Sort(vs, Leq);
    var k, l := SortKeepsDouble(vs, i, j);
    SweepLeavesDouble(s.positions, s.owner, r, k, l);
  }

  lemma TakesAlong(s: RingState, vpos: (Id, nat) -> Pos, q: Id, p: Pos)
    requires q !in s.routers && Owns(vpos, q, p)
    ensures p !in RemoveRouter(AddRouter(s, vpos, q), q).owner
  {
    VirtualMembers(vpos, q, p);
    var s' := AddRouter(s, vpos, q);
    var all := s.positions + Virtual(vpos, q, VIRTUAL_NODES);
    SortSorts(all, Leq);
    Members(s'.positions, all);
    SweepForgets(s'.positions, s'.owner, q, p);
  }

  /** A router that shares a position with another takes it along when it leaves. */
  lemma SharedPositionIsLost(vpos: (Id, nat) -> Pos, r: Id, q: Id, i: nat, j: nat)
    requires r != q && i < VIRTUAL_NODES && j < VIRTUAL_NODES && vpos(r, i) == vpos(q, j)
    ensures Evolve(vpos, [Join(r), Join(q), Leave(q)]) != Evolve(vpos, [Join(r)])
    ensures Current([Join(r), Join(q), Leave(q)]) == Current([Join(r)])
  {
    var one, two, three := [Join(r)], [Join(r), Join(q)], [Join(r), Join(q), Leave(q)];
    OneMore(vpos, [], Join(r), one);
    OneMore(vpos, one, Join(q), two);
    OneMore(vpos, two, Leave(q), three);
    var p := vpos(r, i);
    VirtualMembers(vpos, r, p);
    assert p in Evolve(vpos, one).owner;
    TakesAlong(Evolve(vpos, one), vpos, q, p);
  }

  ghost predicate Independent(vpos: (Id, nat) -> Pos, ids: set<Id>)
  {
    forall ops, ops' | Named(ops) <= ids && Named(ops') <= ids && Current(ops) == Current(ops') ::
      Evolve(vpos, ops) == Evolve(vpos, ops')
  }

  /** The ring over a set of routers is independent of its history exactly when their virtual
      positions do not collide. */
  lemma IndependentIffCollisionFree(vpos: (Id, nat) -> Pos, ids: set<Id>)
    ensures Independent(vpos, ids) <==> CollisionFree(vpos, ids)
  {
    if CollisionFree(vpos, ids) {
      forall ops, ops' | Named(ops) <= ids && Named(ops') <= ids && Current(ops) == Current(ops')
        ensures Evolve(vpos, ops) == Evolve(vpos, ops')
      {
        CollisionFreeSubset(vpos, ids, Named(ops) + Named(ops'));
        HistoryIndependence(vpos, ops, ops');
      }
    }
    if Independent(vpos, ids) {
      forall r, i: nat, q, j: nat |
        r in ids && q in ids && i < VIRTUAL_NODES && j < VIRTUAL_NODES && vpos(r, i) == vpos(q, j)
        ensures r == q && (i == j || r == NIL)
      {
        if r != q {
          SharedPositionIsLost(vpos, r, q, i, j);
          assert false;
        } else if r == NIL {
        } else if i < j {
          OwnCollisionLingers(vpos, r, i, j);
          assert false;
        } else if j < i {
          OwnCollisionLingers(vpos, r, j, i);
          assert false;
        }
      }
    }
  }
}
