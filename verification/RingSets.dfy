/** All rings of a node together. */
module RingSets {
  import opened Types
  import opened Circle
  import opened PeerSpec
  import opened Rings

  /** The two neighbours of a newcomer on a ring: its successor and its predecessor among the earlier members. */
  ghost predicate IsAround(h: RingHash, r: nat, before: set<Id>, p: Id, around: (Id, Id)) {
    match around
    case (succ, prev) =>
      && succ in before && Precedes(h, r, before + {p}, p, succ)
      && prev in before && Precedes(h, r, before + {p}, prev, p)
  }

  /** `q` is next to `id` on one of the rings up to `k`. */
  ghost predicate NextToSome(h: RingHash, members: set<Id>, id: Id, k: nat, q: Id) {
    exists r :: IsRing(r, k) && NextTo(h, r, members, id, q)
  }

  /** The members next to an id on one of the rings up to `k`. */
  ghost function NextToWithin(h: RingHash, members: set<Id>, id: Id, k: nat): set<Id> {
    set q | q in members && NextToSome(h, members, id, k, q)
  }

  /** One more ring adds those next to the id on that ring. */
  lemma NextToOneMore(h: RingHash, members: set<Id>, id: Id, k: nat, q: Id)
    requires k >= 1
    ensures NextToSome(h, members, id, k, q) <==> NextToSome(h, members, id, k - 1, q) || NextTo(h, k, members, id, q)
  {
    if NextTo(h, k, members, id, q) {
      assert IsRing(k, k);
    }
    if NextToSome(h, members, id, k - 1, q) {
      var r :| IsRing(r, k - 1) && NextTo(h, r, members, id, q);
      assert IsRing(r, k);
    }
  }

  lemma NextToStep(h: RingHash, members: set<Id>, id: Id, k: nat, succ: Id, prev: Id)
    requires k >= 1 && succ in members && prev in members
    requires forall q :: q in members ==> (NextTo(h, k, members, id, q) <==> q == succ || q == prev)
    ensures NextToWithin(h, members, id, k) == NextToWithin(h, members, id, k - 1) + {succ} + {prev}
  {
    forall q | q in members
      ensures NextToSome(h, members, id, k, q) <==> NextToSome(h, members, id, k - 1, q) || q == succ || q == prev
    {
      NextToOneMore(h, members, id, k, q);
    }
  }

  /** Appends an id unless it is there already. */
  function AddNew(ids: seq<Id>, id: Id): (r: seq<Id>)
    ensures ToSet(r) == ToSet(ids) + {id}
  {
    if id in ids then ids else ids + [id]
  }

  class RingSet {
    const hash: RingHash
    const numRings: nat
    const self: Id
    const ringMap: map<nat, Ring>

    function Lookup(r: nat): Option<Ring> {
      if r in ringMap then Some(ringMap[r]) else None
    }

    ghost predicate RingAt(r: nat, members: set<Id>)
      reads if r in ringMap then {ringMap[r]} else {}
    {
      match Lookup(r)
      case None => true
      case Some(ring) =>
        && ring.Valid() && ring.Members() == members
        && ring.ringNum == r && ring.hash == hash && ring.selfId.id == self
    }

    ghost predicate Shape() {
      && Injective(hash) && ringMap.Keys == RingNums(numRings)
      && (forall r, x :: r in ringMap && x in ringMap && r != x ==> ringMap[r] != ringMap[x])
    }

    /** Every ring holds exactly `members`. */
    ghost predicate Valid(members: set<Id>)
      reads ringMap.Values
    {
      Shape() && self in members && forall r :: RingAt(r, members)
    }

    /** One ring per ring number, each holding only the node itself. */
    constructor (hash: RingHash, numRings: nat, self: Id)
      requires Injective(hash)
      ensures Valid({self}) && fresh(ringMap.Values)
      ensures this.hash == hash && this.numRings == numRings && this.self == self
    {
      var rings: map<nat, Ring> := map[];
      var i := 1;
      while i <= numRings
        invariant 1 <= i <= numRings + 1 && rings.Keys == RingNums(i - 1)
        invariant forall r :: r in rings ==> fresh(rings[r]) && rings[r].Valid() && rings[r].Members() == {self}
        invariant forall r :: r in rings ==>
          rings[r].ringNum == r && rings[r].hash == hash && rings[r].selfId.id == self
      {
        var ring := new Ring(i, hash, self);
        rings := rings[i := ring];
        i := i + 1;
      }
      this.hash, this.numRings, this.self, this.ringMap := hash, numRings, self, rings;
    }

    /** The rings below `i` hold `after`, the others still `before`. */
    ghost predicate Halfway(i: nat, before: set<Id>, after: set<Id>)
      reads ringMap.Values
    {
      (forall r: nat :: r < i ==> RingAt(r, after)) && forall r: nat :: i <= r ==> RingAt(r, before)
    }

    method AddTo(r: nat, p: Id, ghost before: set<Id>) returns (around: (Id, Id))
      requires Shape() && r in ringMap && p !in before && Halfway(r, before, before + {p})
      modifies ringMap[r]
      ensures Halfway(r + 1, before, before + {p}) && IsAround(hash, r, before, p, around)
    {
      assert RingAt(r, before);
      var _, a := ringMap[r].Add(p);
      around := a.value;
      assert RingAt(r, before + {p});
    }

    /** Every ring takes in a newcomer. The rings do not touch each other, so the order of the visits is immaterial.
        Returns the newcomer's neighbours, ring by ring. */
    method Add(p: Id, ghost before: set<Id>) returns (around: seq<(Id, Id)>)
      requires Valid(before) && p !in before
      modifies ringMap.Values
      ensures Valid(before + {p})
      ensures |around| == numRings && forall k :: 0 <= k < |around| ==> IsAround(hash, k + 1, before, p, around[k])
    {
      ghost var after := before + {p};
      around := [];
      var i := 1;
      while i <= numRings
        invariant 1 <= i == |around| + 1 <= numRings + 1
        invariant Halfway(i, before, after)
        invariant forall k :: 0 <= k < |around| ==> IsAround(hash, k + 1, before, p, around[k])
      {
        var a := AddTo(i, p, before);
        around := around + [a];
        i := i + 1;
      }
      forall r: nat ensures RingAt(r, after) {
        assert r in ringMap ==> r < i;
      }
    }

    method RemoveFrom(r: nat, p: Id, ghost before: set<Id>)
      requires Shape() && r in ringMap && Halfway(r, before, before - ({p} - {self}))
      modifies ringMap[r]
      ensures Halfway(r + 1, before, before - ({p} - {self}))
    {
      assert RingAt(r, before);
      ringMap[r].Remove(p);
      assert RingAt(r, before - ({p} - {self}));
    }

    /** A peer leaves every ring; the node itself never does. */
    method Remove(p: Id, ghost before: set<Id>)
      requires Valid(before)
      modifies ringMap.Values
      ensures Valid(before - ({p} - {self}))
    {
      ghost var after := before - ({p} - {self});
      var i := 1;
      while i <= numRings
        invariant 1 <= i <= numRings + 1 && Halfway(i, before, after)
      {
        RemoveFrom(i, p, before);
        i := i + 1;
      }
      forall r: nat ensures RingAt(r, after) {
        assert r in ringMap ==> r < i;
      }
    }

    /** The predecessor check on a ring; an unknown ring has no predecessors. */
    method IsPredecessor(p: Id, toCheck: Id, ringNum: nat, ghost members: set<Id>) returns (yes: bool)
      requires Valid(members)
      ensures yes <==> IsRing(ringNum, numRings) && IsPrev(hash, ringNum, members, p, toCheck)
    {
      if ringNum !in ringMap {
        return false;
      }
      assert RingAt(ringNum, members);
      yes := ringMap[ringNum].IsPrev(p, toCheck);
    }

    /** The successor on a ring, unless it is the node itself. */
    method MyRingSuccessor(ringNum: nat, ghost members: set<Id>) returns (succ: Option<Id>)
      requires Valid(members)
      ensures succ.Some? ==>
        && succ.value in members - {self} && IsRing(ringNum, numRings)
        && Precedes(hash, ringNum, members, self, succ.value)
      ensures succ.None? && IsRing(ringNum, numRings) ==> Precedes(hash, ringNum, members, self, self)
    {
      if ringNum !in ringMap {
        return None;
      }
      assert RingAt(ringNum, members);
      var ring := ringMap[ringNum];
      ring.EntryNeighbours(ring.selfIdx);
      var id := ring.Successor().id;
      succ := if id == self then None else Some(id);
    }

    /** The neighbours of any id on a ring. */
    method RingNeighbours(r: nat, id: Id, ghost members: set<Id>) returns (succ: Id, prev: Id)
      requires Valid(members) && r in ringMap
      ensures succ in members && prev in members
      ensures forall q :: q in members ==> (NextTo(hash, r, members, id, q) <==> q == succ || q == prev)
    {
      assert RingAt(r, members);
      succ, prev := ringMap[r].Neighbours(id);
      NextToAre(hash, r, members, id, succ, prev);
    }

    /** The node's neighbours on a ring, without itself and without repetition. */
    method MyRingNeighbours(ringNum: nat, ghost members: set<Id>) returns (ids: seq<Id>)
      requires Valid(members)
      ensures forall q :: q in ids <==>
        q in members && q != self && IsRing(ringNum, numRings) && NextTo(hash, ringNum, members, self, q)
      ensures |ids| <= 2 && (|ids| == 2 ==> ids[0] != ids[1])
    {
      if ringNum !in ringMap {
        return [];
      }
      assert RingAt(ringNum, members);
      var ring := ringMap[ringNum];
      ring.EntryNeighbours(ring.selfIdx);
      var succ, prev := ring.Successor().id, ring.Predecessor().id;
      NextToAre(hash, ringNum, members, self, succ, prev);
      ids := (if succ != self then [succ] else []) + (if prev != succ && prev != self then [prev] else []);
    }

    /** Whether an id is, or would be once added, next to the node on some ring. */
    method ShouldBeMyNeighbour(id: Id, ghost members: set<Id>) returns (yes: bool)
      requires Valid(members) && numRings >= 1
      ensures yes <==> id == self || exists r :: IsRing(r, numRings) && NextTo(hash, r, members, self, id)
    {
      var i := 1;
      while i <= numRings
        invariant 1 <= i <= numRings + 1
        invariant i > 1 ==> id != self
        invariant forall r :: 1 <= r < i ==> !NextTo(hash, r, members, self, id)
      {
        assert RingAt(i, members);
        var between := ringMap[i].BetweenNeighbours(id);
        if between {
          return true;
        }
        i := i + 1;
      }
      yes := false;
    }

    /** The neighbours of an id on all rings, without repetition. */
    method FindNeighbours(id: Id, ghost members: set<Id>) returns (ids: seq<Id>)
      requires Valid(members)
      ensures ToSet(ids) == NextToWithin(hash, members, id, numRings)
    {
      ids := [];
      var i := 1;
      while i <= numRings
        invariant 1 <= i <= numRings + 1
        invariant ToSet(ids) == NextToWithin(hash, members, id, i - 1)
      {
        var succ, prev := RingNeighbours(i, id, members);
        NextToStep(hash, members, id, i, succ, prev);
        ids := AddNew(ids, succ);
        ids := AddNew(ids, prev);
        i := i + 1;
      }
    }
  }
}
