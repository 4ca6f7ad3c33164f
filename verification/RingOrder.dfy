/** Rings as a whole: one list per membership, one cycle through all members. */
module RingOrder {
  import opened Types
  import opened Circle
  import opened RingSearch
  import opened Rings

  // ---------------------------------------------------------------------
  // One list per membership
  // ---------------------------------------------------------------------

  /** The last entry of a sorted list has the greatest position of all its ids. */
  lemma LastIsGreatest(h: RingHash, r: nat, list: seq<RingId>, id: Id)
    requires Sorted(list) && Placed(h, r, list) && list != [] && id in Ids(list)
    ensures h(r, id) <= list[|list| - 1].hash
  {
    var x :| x in list && x.id == id;
    var k :| 0 <= k < |list| && list[k] == x;
  }

  /** Two sorted lists with the same ids are the same list, however they came about. */
  lemma {:induction false} Canonical(h: RingHash, r: nat, a: seq<RingId>, b: seq<RingId>)
    requires Injective(h) && Sorted(a) && Placed(h, r, a) && Sorted(b) && Placed(h, r, b) && Ids(a) == Ids(b)
    ensures a == b
  {
    if a == [] {
      if b != [] {
        IdAt(b, 0);
      }
    } else {
      IdAt(a, |a| - 1);
      if b == [] {
        assert false;
      }
      IdAt(b, |b| - 1);
      var x, y := a[|a| - 1], b[|b| - 1];
      LastIsGreatest(h, r, a, y.id);
      LastIsGreatest(h, r, b, x.id);
      assert x == y;
      IdsRemove(h, r, a, |a| - 1);
      IdsRemove(h, r, b, |b| - 1);
      assert RemoveAt(a, |a| - 1) == a[..|a| - 1] && RemoveAt(b, |b| - 1) == b[..|b| - 1];
      Canonical(h, r, a[..|a| - 1], b[..|b| - 1]);
      assert a == a[..|a| - 1] + [x] && b == b[..|b| - 1] + [y];
    }
  }

  /** Two nodes with the same membership have the same list and the same map on every ring; with the same self they also
      agree on the cached index. So a membership that was left and restored, by any joins and departures, restores the
      ring. */
  lemma RingsAreCanonical(a: Ring, b: Ring)
    requires a.Valid() && b.Valid() && a.hash == b.hash && a.ringNum == b.ringNum && a.Members() == b.Members()
    ensures a.succList == b.succList && a.peerToRing == b.peerToRing && a.length == b.length
    ensures a.selfId == b.selfId ==> a.selfIdx == b.selfIdx
  {
    assert Ids(a.succList) == a.Members() && Ids(b.succList) == b.Members();
    Canonical(a.hash, a.ringNum, a.succList, b.succList);
  }

  /** Two nodes with the same membership give the same predecessor verdict on every pair of ids, wherever the nodes
      themselves stand on the ring. */
  method SameVerdict(a: Ring, b: Ring, p: Id, accuser: Id) returns (atA: bool, atB: bool)
    requires a.Valid() && b.Valid() && a.hash == b.hash && a.ringNum == b.ringNum && a.Members() == b.Members()
    ensures atA == atB
    ensures p != accuser ==> (atA <==> Precedes(a.hash, a.ringNum, a.Members(), accuser, p))
  {
    atA := a.IsPrev(p, accuser);
    atB := b.IsPrev(p, accuser);
  }

  /** Removing a peer that was just added restores the list, the map, the length and the cached index. */
  method JoinThenLeave(ring: Ring, p: Id)
    requires ring.Valid() && p !in ring.Members()
    modifies ring
    ensures ring.Valid() && ring.succList == old(ring.succList) && ring.peerToRing == old(ring.peerToRing)
    ensures ring.length == old(ring.length) && ring.selfIdx == old(ring.selfIdx)
  {
    ghost var list := ring.succList;
    assert Ids(list) == ring.Members();
    assert ring.selfId.id in ring.Members() by {
      IdAt(list, ring.selfIdx);
    }
    var _, _ := ring.Add(p);
    ring.Remove(p);
    assert Ids(ring.succList) == ring.Members();
    Canonical(ring.hash, ring.ringNum, ring.succList, list);
  }

  // ---------------------------------------------------------------------
  // Any membership has its list
  // ---------------------------------------------------------------------

  /** Where an absent id belongs. */
  lemma {:induction false} PlaceExists(list: seq<RingId>, hash: int) returns (at: nat)
    requires Sorted(list)
    ensures LowerBound(list, hash, at)
  {
    at := 0;
    while at < |list| && list[at].hash < hash
      invariant at <= |list|
      invariant forall k :: 0 <= k < at ==> list[k].hash < hash
    {
      at := at + 1;
    }
  }

  lemma {:induction false} ListExists(h: RingHash, r: nat, members: set<Id>) returns (list: seq<RingId>)
    requires Injective(h)
    ensures Sorted(list) && Placed(h, r, list) && Ids(list) == members && |list| == |members|
  {
    if members == {} {
      list := [];
    } else {
      var x :| x in members;
      var rest := ListExists(h, r, members - {x});
      var at := PlaceExists(rest, h(r, x));
      list := InsertAt(rest, EntryOf(h, r, x), at);
      FreePosition(h, r, rest, x);
      InsertKeepsSorted(rest, EntryOf(h, r, x), at);
      InsertKeepsPlaced(h, r, rest, x, at);
      IdsInsert(rest, EntryOf(h, r, x), at);
    }
  }

  // ---------------------------------------------------------------------
  // One cycle through all members
  // ---------------------------------------------------------------------

  /** `k` successor steps from index `i`. */
  function Hop(i: nat, k: nat, length: nat): (j: nat)
    requires i < length
    ensures j < length
  {
    if k == 0 then i else SuccIndex(Hop(i, k - 1, length), length)
  }

  lemma {:induction false} HopIndex(i: nat, k: nat, length: nat)
    requires i < length && k <= length
    ensures Hop(i, k, length) == if i + k < length then i + k else i + k - length
  {
    if k > 0 {
      HopIndex(i, k - 1, length);
    }
  }

  /** The direct-predecessor relation among members is the successor relation of their list. */
  lemma RelationIsList(h: RingHash, r: nat, list: seq<RingId>, i: nat, j: nat)
    requires Sorted(list) && Placed(h, r, list) && i < |list| && j < |list|
    ensures Precedes(h, r, Ids(list), list[i].id, list[j].id) <==> j == SuccIndex(i, |list|)
  {
    ListNeighbours(list, i, j);
    ListIsCircle(h, r, list, list[i].id, list[j].id);
  }

  /** Following successors from any member visits every member exactly once before it comes back. The walk is given
      by its start and the ids it visits. */
  ghost predicate IsTour(h: RingHash, r: nat, members: set<Id>, start: Id, tour: seq<Id>) {
    && |tour| == |members| && 0 < |tour| && tour[0] == start
    && (forall k :: 0 <= k < |tour| ==> tour[k] in members)
    && (forall k :: 0 < k < |tour| ==> Precedes(h, r, members, tour[k - 1], tour[k]))
    && Precedes(h, r, members, tour[|tour| - 1], start)
    && (forall x :: x in members ==> x in tour)
    && (forall j, k :: 0 <= j < k < |tour| ==> tour[j] != tour[k])
  }

  lemma OneCycle(h: RingHash, r: nat, members: set<Id>, start: Id) returns (tour: seq<Id>)
    requires Injective(h) && start in members
    ensures IsTour(h, r, members, start, tour)
  {
    var list := ListExists(h, r, members);
    var n := |list|;
    var x :| x in list && x.id == start;
    var i :| 0 <= i < n && list[i] == x;
    tour := seq(n, k requires 0 <= k => list[Hop(i, k, n)].id);
    TourSteps(h, r, list, i, tour);
    TourCovers(h, r, list, i, tour);
  }

  /** Consecutive stops of the walk precede one another, and so does the last stop the start. */
  lemma TourSteps(h: RingHash, r: nat, list: seq<RingId>, i: nat, tour: seq<Id>)
    requires Sorted(list) && Placed(h, r, list) && i < |list| == |tour|
    requires forall k :: 0 <= k < |tour| ==> tour[k] == list[Hop(i, k, |list|)].id
    ensures forall k :: 0 < k < |tour| ==> Precedes(h, r, Ids(list), tour[k - 1], tour[k])
    ensures Precedes(h, r, Ids(list), tour[|tour| - 1], tour[0])
    ensures forall k :: 0 <= k < |tour| ==> tour[k] in Ids(list)
  {
    var n := |list|;
    forall k | 0 < k < n ensures Precedes(h, r, Ids(list), tour[k - 1], tour[k]) {
      RelationIsList(h, r, list, Hop(i, k - 1, n), Hop(i, k, n));
    }
    HopIndex(i, n - 1, n);
    RelationIsList(h, r, list, Hop(i, n - 1, n), i);
    forall k | 0 <= k < n ensures tour[k] in Ids(list) {
      IdAt(list, Hop(i, k, n));
    }
  }

  /** The walk repeats nothing and misses nothing. */
  lemma TourCovers(h: RingHash, r: nat, list: seq<RingId>, i: nat, tour: seq<Id>)
    requires Sorted(list) && Placed(h, r, list) && i < |list| == |tour|
    requires forall k :: 0 <= k < |tour| ==> tour[k] == list[Hop(i, k, |list|)].id
    ensures forall x :: x in Ids(list) ==> x in tour
    ensures forall j, k :: 0 <= j < k < |tour| ==> tour[j] != tour[k]
  {
    var n := |list|;
    forall x | x in Ids(list) ensures x in tour {
      var y :| y in list && y.id == x;
      var j :| 0 <= j < n && list[j] == y;
      var k := if i <= j then j - i else j + n - i;
      HopIndex(i, k, n);
      assert tour[k] == x;
    }
    forall j, k | 0 <= j < k < n ensures tour[j] != tour[k] {
      HopIndex(i, j, n);
      HopIndex(i, k, n);
      assert list[Hop(i, j, n)].hash != list[Hop(i, k, n)].hash;
    }
  }

  /** Among at least two members every member has exactly one direct predecessor, another member: the one that
      monitors it on that ring. */
  lemma UniqueMonitor(h: RingHash, r: nat, members: set<Id>, p: Id) returns (q: Id)
    requires Injective(h) && p in members && |members| >= 2
    ensures q in members && q != p && Precedes(h, r, members, q, p)
    ensures forall x :: x in members && Precedes(h, r, members, x, p) ==> x == q
  {
    var tour := OneCycle(h, r, members, p);
    q := tour[|tour| - 1];
    assert tour[0] != tour[|tour| - 1];
    forall x | x in members && Precedes(h, r, members, x, p) ensures x == q {
      NeighbourUnique(h, r, members, p, x, q);
    }
  }

  /** Likewise exactly one direct successor: the one it monitors. */
  lemma UniqueTarget(h: RingHash, r: nat, members: set<Id>, p: Id) returns (q: Id)
    requires Injective(h) && p in members && |members| >= 2
    ensures q in members && q != p && Precedes(h, r, members, p, q)
    ensures forall x :: x in members && Precedes(h, r, members, p, x) ==> x == q
  {
    var tour := OneCycle(h, r, members, p);
    q := tour[1];
    forall x | x in members && Precedes(h, r, members, p, x) ensures x == q {
      NeighbourUnique(h, r, members, p, x, q);
    }
  }

  /** The predecessor check says whether `a` stands directly before `p` in the list that holds the members and both
      ids, wherever they are now. */
  lemma PrecedesOnceInserted(h: RingHash, r: nat, members: set<Id>, a: Id, p: Id, list: seq<RingId>, i: nat)
    requires Injective(h) && a != p && Sorted(list) && Placed(h, r, list) && Ids(list) == members + {a, p}
    requires i < |list| && list[i].id == p
    ensures IsPrev(h, r, members, p, a) <==> Prev(list, i).id == a
  {
    EndpointsDoNotCount(h, r, members, a, p);
    var x :| x in list && x.id == a;
    var j :| 0 <= j < |list| && list[j] == x;
    ListNeighbours(list, j, i);
    RelationIsList(h, r, list, j, i);
    if Prev(list, i).id == a {
      assert Prev(list, i).hash == h(r, a);
    }
  }
}
