/** One ring of the overlay: the positions of the live members and of the node itself, kept sorted. */
module Rings {
  import opened Types
  import opened Circle
  import opened RingSearch

  /** `x` lies on the closed arc from `start` to `end`. */
  predicate IsBetween(start: RingId, end: RingId, x: RingId) {
    var startEnd := start.Compare(end);
    var startNew := start.Compare(x);
    var endNew := end.Compare(x);
    if endNew == 0 || startNew == 0 then true
    else if startEnd == -1 then startNew == -1 && endNew == 1
    else if startEnd == 1 then (startNew == 1 && endNew == 1) || (startNew == -1 && endNew == -1)
    else true
  }

  /** With `prev` the last entry before `p`, lying between them decides who precedes `p`. */
  lemma BetweenDecides(s: seq<RingId>, prev: RingId, p: RingId, a: RingId)
    requires prev in s && Follows(s, prev.hash, p.hash) && a.hash != p.hash
    ensures IsBetween(prev, p, a) <==> Follows(s, a.hash, p.hash)
  {
    if !IsBetween(prev, p, a) {
      assert Inside(a.hash, p.hash, prev.hash);
    }
  }

  /** The mirror image: with `succ` the first entry after `p`. */
  lemma BetweenDecidesSucc(s: seq<RingId>, p: RingId, succ: RingId, a: RingId)
    requires succ in s && Follows(s, p.hash, succ.hash) && a.hash != p.hash
    ensures IsBetween(p, succ, a) <==> Follows(s, p.hash, a.hash)
  {
    if !IsBetween(p, succ, a) {
      assert Inside(p.hash, a.hash, succ.hash);
    }
  }

  /** The entry of an id on a ring. */
  function EntryOf(h: RingHash, r: nat, id: Id): RingId {
    RingId(id, h(r, id))
  }

  /** The ids on a list. */
  ghost function Ids(list: seq<RingId>): set<Id> {
    set x | x in list :: x.id
  }

  lemma IdAt(list: seq<RingId>, k: nat)
    requires k < |list|
    ensures list[k].id in Ids(list)
  {
    assert list[k] in list;
  }

  /** Every entry stands at its id's position. */
  ghost predicate Placed(h: RingHash, r: nat, list: seq<RingId>) {
    forall k :: 0 <= k < |list| ==> list[k].hash == h(r, list[k].id)
  }

  /** A ring's index is consistent: the list is sorted by position, agrees with the map, and holds the node itself
      at the cached index. */
  ghost predicate Consistent(h: RingHash, r: nat, self: RingId, list: seq<RingId>,
                             entries: map<Id, RingId>, selfIdx: nat)
  {
    && Sorted(list)
    && Placed(h, r, list)
    && selfIdx < |list| && list[selfIdx] == self
    && entries == map id | id in Ids(list) :: EntryOf(h, r, id)
  }

  /** Where an entry ends up when another one is inserted. */
  function Shifted(k: nat, at: nat): nat {
    if at <= k then k + 1 else k
  }

  function RemoveAt(list: seq<RingId>, at: nat): seq<RingId>
    requires at < |list|
  {
    list[..at] + list[at + 1..]
  }

  lemma IdsInsert(list: seq<RingId>, x: RingId, at: nat)
    requires at <= |list|
    ensures Ids(InsertAt(list, x, at)) == Ids(list) + {x.id}
  {
    assert list == list[..at] + list[at..];
    assert forall y :: y in InsertAt(list, x, at) <==> y == x || y in list;
  }

  lemma IdsRemove(h: RingHash, r: nat, list: seq<RingId>, at: nat)
    requires at < |list| && Sorted(list) && Placed(h, r, list)
    ensures Ids(RemoveAt(list, at)) == Ids(list) - {list[at].id}
  {
    var fewer := RemoveAt(list, at);
    forall y | y in list ensures y in fewer <==> y.id != list[at].id {
      var k :| 0 <= k < |list| && list[k] == y;
      if k != at {
        assert fewer[if k < at then k else k - 1] == y;
      }
    }
    assert forall y :: y in fewer ==> y in list;
  }

  lemma InsertKeepsConsistent(h: RingHash, r: nat, self: RingId, list: seq<RingId>, entries: map<Id, RingId>,
                              selfIdx: nat, p: Id, at: nat)
    requires Injective(h) && Consistent(h, r, self, list, entries, selfIdx)
    requires p !in entries && LowerBound(list, h(r, p), at)
    ensures var x := EntryOf(h, r, p);
      Consistent(h, r, self, InsertAt(list, x, at), entries[p := x], Shifted(selfIdx, at))
  {
    var x := EntryOf(h, r, p);
    FreePosition(h, r, list, p);
    InsertKeepsSorted(list, x, at);
    InsertKeepsPlaced(h, r, list, p, at);
    InsertKeepsOther(list, x, at, selfIdx);
    IdsInsert(list, x, at);
    assert entries[p := x] == map id | id in Ids(list) + {p} :: EntryOf(h, r, id);
  }

  lemma InsertKeepsOther(list: seq<RingId>, x: RingId, at: nat, k: nat)
    requires at <= |list| && k < |list|
    ensures Shifted(k, at) < |InsertAt(list, x, at)| && InsertAt(list, x, at)[Shifted(k, at)] == list[k]
  {
  }

  /** An id that is not on the list has its position to itself. */
  lemma FreePosition(h: RingHash, r: nat, list: seq<RingId>, p: Id)
    requires Injective(h) && Placed(h, r, list) && p !in Ids(list)
    ensures forall k :: 0 <= k < |list| ==> list[k].hash != h(r, p)
  {
    forall k | 0 <= k < |list| ensures list[k].hash != h(r, p) {
      IdAt(list, k);
      assert Apart(h, r, list[k].id, p);
    }
  }

  lemma InsertKeepsPlaced(h: RingHash, r: nat, list: seq<RingId>, p: Id, at: nat)
    requires Placed(h, r, list) && at <= |list|
    ensures Placed(h, r, InsertAt(list, EntryOf(h, r, p), at))
  {
  }

  lemma RemoveKeepsConsistent(h: RingHash, r: nat, self: RingId, list: seq<RingId>, entries: map<Id, RingId>,
                              selfIdx: nat, at: nat)
    requires Consistent(h, r, self, list, entries, selfIdx) && at < |list| && at != selfIdx
    ensures Consistent(h, r, self, RemoveAt(list, at), entries - {list[at].id},
                       if at < selfIdx then selfIdx - 1 else selfIdx)
  {
    RemoveKeepsSorted(h, r, list, at);
    RemoveKeepsOther(list, at, selfIdx);
    IdsRemove(h, r, list, at);
    assert entries - {list[at].id} == map id | id in Ids(list) - {list[at].id} :: EntryOf(h, r, id);
  }

  lemma RemoveKeepsOther(list: seq<RingId>, at: nat, k: nat)
    requires at < |list| && k < |list| && k != at
    ensures var fewer := RemoveAt(list, at);
      var i := if at < k then k - 1 else k;
      i < |fewer| && fewer[i] == list[k]
  {
  }

  lemma RemoveKeepsSorted(h: RingHash, r: nat, list: seq<RingId>, at: nat)
    requires Sorted(list) && Placed(h, r, list) && at < |list|
    ensures Sorted(RemoveAt(list, at)) && Placed(h, r, RemoveAt(list, at))
  {
  }

  /** The list and the set of its ids describe the same circle. */
  lemma ListIsCircle(h: RingHash, r: nat, list: seq<RingId>, a: Id, p: Id)
    requires Placed(h, r, list)
    ensures Follows(list, h(r, a), h(r, p)) <==> Precedes(h, r, Ids(list), a, p)
  {
    if Precedes(h, r, Ids(list), a, p) {
      forall k | 0 <= k < |list| ensures !Inside(h(r, a), h(r, p), list[k].hash) {
        IdAt(list, k);
      }
    }
  }

  lemma DistinctAt(s: seq<RingId>, i: nat, j: nat)
    requires Sorted(s) && i < |s| && j < |s|
    ensures s[i].hash != s[j].hash <==> i != j
  {
  }

  /** The node's successor on the list changes exactly when the newcomer comes right after the node. */
  lemma InsertChangesSucc(list: seq<RingId>, x: RingId, at: nat, selfIdx: nat)
    requires at <= |list| && selfIdx < |list| && Sorted(InsertAt(list, x, at))
    ensures var more := InsertAt(list, x, at);
      Succ(more, Shifted(selfIdx, at)).hash != Succ(list, selfIdx).hash
      <==> Shifted(selfIdx, at) == PrevIndex(at, |more|)
  {
    var more := InsertAt(list, x, at);
    var s := Shifted(SuccIndex(selfIdx, |list|), at);
    assert more[s] == Succ(list, selfIdx);
    DistinctAt(more, SuccIndex(Shifted(selfIdx, at), |more|), s);
  }

  /** The node's predecessor on the list changes exactly when the newcomer comes right before the node. */
  lemma InsertChangesPrev(list: seq<RingId>, x: RingId, at: nat, selfIdx: nat)
    requires at <= |list| && selfIdx < |list| && Sorted(InsertAt(list, x, at))
    ensures var more := InsertAt(list, x, at);
      Prev(more, Shifted(selfIdx, at)).hash != Prev(list, selfIdx).hash
      <==> at == PrevIndex(Shifted(selfIdx, at), |more|)
  {
    var more := InsertAt(list, x, at);
    var s := Shifted(PrevIndex(selfIdx, |list|), at);
    assert more[s] == Prev(list, selfIdx);
    DistinctAt(more, PrevIndex(Shifted(selfIdx, at), |more|), s);
  }

  class Ring {
    const hash: RingHash
    const ringNum: nat
    const selfId: RingId

    var peerToRing: map<Id, RingId>
    var succList: seq<RingId>
    var length: int
    var selfIdx: nat

    ghost function Members(): set<Id>
      reads this
    {
      peerToRing.Keys
    }

    function At(id: Id): RingId {
      EntryOf(hash, ringNum, id)
    }

    ghost predicate Valid()
      reads this
    {
      && Injective(hash)
      && length == |succList|
      && Consistent(hash, ringNum, selfId, succList, peerToRing, selfIdx)
    }

    constructor (ringNum: nat, hash: RingHash, self: Id)
      requires Injective(hash)
      ensures Valid() && Members() == {self}
      ensures this.ringNum == ringNum && this.hash == hash && selfId.id == self
    {
      var id := EntryOf(hash, ringNum, self);
      this.ringNum := ringNum;
      this.hash := hash;
      this.selfId := id;
      succList := [id];
      peerToRing := map[self := id];
      length := 1;
      selfIdx := 0;
    }

    function Successor(): RingId
      requires Valid()
      reads this
    {
      Succ(succList, selfIdx)
    }

    function Predecessor(): RingId
      requires Valid()
      reads this
    {
      Prev(succList, selfIdx)
    }

    /** The list neighbours of an entry are its neighbours on the circle. */
    lemma EntryNeighbours(i: nat)
      requires Valid() && i < |succList|
      ensures Precedes(hash, ringNum, Members(), succList[i].id, Succ(succList, i).id)
      ensures Precedes(hash, ringNum, Members(), Prev(succList, i).id, succList[i].id)
      ensures Succ(succList, i).id in Members() && Prev(succList, i).id in Members()
      ensures |succList| >= 2 ==> Succ(succList, i) != succList[i] && Prev(succList, i) != succList[i]
    {
      NeighboursOfEntry(succList, i);
      ListIsCircle(hash, ringNum, succList, succList[i].id, Succ(succList, i).id);
      ListIsCircle(hash, ringNum, succList, Prev(succList, i).id, succList[i].id);
    }

    /** What an insertion at `idx` did to the circle, around the newcomer and around the node itself. */
    lemma AddedNeighbours(before: seq<RingId>, beforeIdx: nat, p: Id, idx: nat)
      requires Valid() && idx <= |before| && beforeIdx < |before| && succList == InsertAt(before, At(p), idx)
      requires selfIdx == Shifted(beforeIdx, idx)
      ensures Successor().hash != Succ(before, beforeIdx).hash <==> Precedes(hash, ringNum, Members(), selfId.id, p)
      ensures Predecessor().hash != Prev(before, beforeIdx).hash <==> Precedes(hash, ringNum, Members(), p, selfId.id)
      ensures Precedes(hash, ringNum, Members(), p, Succ(succList, idx).id)
      ensures Precedes(hash, ringNum, Members(), Prev(succList, idx).id, p)
      ensures Succ(succList, idx).id in Members() - {p} && Prev(succList, idx).id in Members() - {p}
    {
      assert succList[idx] == At(p);
      InsertChangesSucc(before, At(p), idx, beforeIdx);
      InsertChangesPrev(before, At(p), idx, beforeIdx);
      EntryNeighbours(idx);
      ListNeighbours(succList, selfIdx, idx);
      ListNeighbours(succList, idx, selfIdx);
      ListIsCircle(hash, ringNum, succList, selfId.id, p);
      ListIsCircle(hash, ringNum, succList, p, selfId.id);
    }

    /** Adds a member. Returns the neighbours the node thereby lost, and the new member's own neighbours. */
    method Add(p: Id) returns (lost: seq<Id>, around: Option<(Id, Id)>)
      requires Valid()
      modifies this
      ensures Valid() && Members() == old(Members()) + {p}
      ensures p in old(Members()) ==> lost == [] && around == None && succList == old(succList)
      ensures p !in old(Members()) ==>
        && lost == (if Precedes(hash, ringNum, Members(), selfId.id, p) then [old(Successor()).id] else [])
                 + (if Precedes(hash, ringNum, Members(), p, selfId.id) then [old(Predecessor()).id] else [])
        && around.Some?
        && around.value.0 in old(Members()) && Precedes(hash, ringNum, Members(), p, around.value.0)
        && around.value.1 in old(Members()) && Precedes(hash, ringNum, Members(), around.value.1, p)
    {
      if p in peerToRing {
        return [], None;
      }
      var oldSucc, oldPrev := Successor(), Predecessor();
      ghost var before, beforeIdx := succList, selfIdx;
      var idx := Place(p);
      AddedNeighbours(before, beforeIdx, p, idx);
      lost := (if Successor().hash != oldSucc.hash then [oldSucc.id] else [])
            + (if Predecessor().hash != oldPrev.hash then [oldPrev.id] else []);
      around := Some((Succ(succList, idx).id, Prev(succList, idx).id));
    }

    /** Takes over a consistent list, map and cached index. */
    method Update(list: seq<RingId>, entries: map<Id, RingId>, idx: nat, count: int)
      requires Injective(hash) && Consistent(hash, ringNum, selfId, list, entries, idx) && count == |list|
      modifies this
      ensures Valid() && succList == list && peerToRing == entries && selfIdx == idx
    {
      succList, peerToRing, selfIdx, length := list, entries, idx, count;
    }

    /** The list with a new member where it belongs. */
    method Inserted(p: Id) returns (list: seq<RingId>, idx: nat)
      requires Valid() && p !in Members()
      ensures idx <= |succList| && list == InsertAt(succList, At(p), idx)
      ensures Consistent(hash, ringNum, selfId, list, peerToRing[p := At(p)], Shifted(selfIdx, idx))
    {
      list, idx := Insert(succList, At(p), length);
      InsertKeepsConsistent(hash, ringNum, selfId, succList, peerToRing, selfIdx, p, idx);
    }

    /** Puts a new member where it belongs and keeps the cached index on the node itself. */
    method Place(p: Id) returns (idx: nat)
      requires Valid() && p !in Members()
      modifies this
      ensures Valid() && Members() == old(Members()) + {p}
      ensures idx <= |old(succList)| && succList == InsertAt(old(succList), At(p), idx)
      ensures selfIdx == Shifted(old(selfIdx), idx)
    {
      var list;
      list, idx := Inserted(p);
      Update(list, peerToRing[p := At(p)], if idx <= selfIdx then selfIdx + 1 else selfIdx, length + 1);
    }

    /** Removes a member; the node itself and non-members are left alone. */
    method Remove(p: Id)
      requires Valid()
      modifies this
      ensures Valid() && Members() == old(Members()) - ({p} - {selfId.id})
      ensures p !in old(Members()) || p == selfId.id ==> succList == old(succList) && selfIdx == old(selfIdx)
    {
      if p !in peerToRing {
        return;
      }
      var found := Search(succList, peerToRing[p], length);
      // The id is on the list, so the search succeeds.
      var idx := found.value;
      assert Apart(hash, ringNum, succList[idx].id, p);
      if idx == selfIdx {
        return;
      }
      Drop(idx);
    }

    /** Takes an entry other than the node's own off the list. */
    method Drop(idx: nat)
      requires Valid() && idx < |succList| && idx != selfIdx
      modifies this
      ensures Valid() && Members() == old(Members()) - {old(succList)[idx].id}
    {
      RemoveKeepsConsistent(hash, ringNum, selfId, succList, peerToRing, selfIdx, idx);
      var entries := peerToRing - {succList[idx].id};
      Update(RemoveAt(succList, idx), entries, if idx < selfIdx then selfIdx - 1 else selfIdx, length - 1);
    }

    /** The predecessor check, in its four live and dead cases. */
    method IsPrev(p: Id, toCheck: Id) returns (yes: bool)
      requires Valid()
      ensures yes <==> Circle.IsPrev(hash, ringNum, Members(), p, toCheck)
    {
      var deadAcc, deadAccuser := p !in peerToRing, toCheck !in peerToRing;
      ListIsCircle(hash, ringNum, succList, toCheck, p);
      assert Apart(hash, ringNum, toCheck, p);
      if !deadAcc && !deadAccuser {
        var rId, toCheckId := peerToRing[p], peerToRing[toCheck];
        if rId.hash != selfId.hash {
          var i := Search(succList, rId, length);
          DirectPrev(i.value, toCheck);
          yes := Prev(succList, i.value).hash == toCheckId.hash;
        } else {
          DirectPrev(selfIdx, toCheck);
          yes := Predecessor().hash == toCheckId.hash;
        }
      } else if deadAcc && !deadAccuser {
        var accId := At(p);
        var _, prev := FindSuccAndPrev(succList, accId, length);
        BetweenDecides(succList, prev, accId, peerToRing[toCheck]);
        yes := IsBetween(prev, accId, peerToRing[toCheck]);
      } else if !deadAcc && deadAccuser {
        var rId, accuserId := peerToRing[p], At(toCheck);
        if rId.hash != selfId.hash {
          var _, prev := FindSuccAndPrev(succList, rId, length);
          BetweenDecides(succList, prev, rId, accuserId);
          yes := IsBetween(prev, rId, accuserId);
        } else {
          NeighboursOfEntry(succList, selfIdx);
          BetweenDecides(succList, Predecessor(), rId, accuserId);
          yes := IsBetween(Predecessor(), rId, accuserId);
        }
      } else {
        var accId, accuserId := At(p), At(toCheck);
        var _, prev := FindSuccAndPrev(succList, accId, length);
        if p != toCheck {
          BetweenDecides(succList, prev, accId, accuserId);
        }
        yes := IsBetween(prev, accId, accuserId);
      }
    }

    /** For two members, the list index decides who precedes whom. */
    lemma DirectPrev(i: nat, a: Id)
      requires Valid() && i < |succList| && a in Members()
      ensures Prev(succList, i).hash == At(a).hash <==>
        Precedes(hash, ringNum, Members(), a, succList[i].id)
    {
      var j :| 0 <= j < |succList| && succList[j] == At(a);
      ListNeighbours(succList, j, i);
      ListIsCircle(hash, ringNum, succList, a, succList[i].id);
    }

    /** Whether an id is, or would be once added, the node's successor or predecessor. */
    method BetweenNeighbours(other: Id) returns (yes: bool)
      requires Valid()
      ensures yes <==> other == selfId.id || NextTo(hash, ringNum, Members(), selfId.id, other)
    {
      ListIsCircle(hash, ringNum, succList, selfId.id, other);
      ListIsCircle(hash, ringNum, succList, other, selfId.id);
      if length <= 1 {
        return true;
      }
      var id := if other in peerToRing then peerToRing[other] else At(other);
      NeighboursOfEntry(succList, selfIdx);
      if other != selfId.id {
        assert Apart(hash, ringNum, other, selfId.id);
        BetweenDecides(succList, Predecessor(), selfId, id);
        BetweenDecidesSucc(succList, selfId, Successor(), id);
      }
      yes := IsBetween(selfId, Successor(), id) || IsBetween(Predecessor(), selfId, id);
    }

    /** The circular neighbours of any id, on the ring or not. */
    method Neighbours(id: Id) returns (succ: Id, prev: Id)
      requires Valid()
      ensures succ in Members() && Precedes(hash, ringNum, Members(), id, succ)
      ensures prev in Members() && Precedes(hash, ringNum, Members(), prev, id)
    {
      var rId := if id in peerToRing then peerToRing[id] else At(id);
      if length <= 1 {
        succ, prev := selfId.id, selfId.id;
      } else {
        var s, p := FindSuccAndPrev(succList, rId, length);
        succ, prev := s.id, p.id;
      }
      ListIsCircle(hash, ringNum, succList, id, succ);
      ListIsCircle(hash, ringNum, succList, prev, id);
    }
  }
}
