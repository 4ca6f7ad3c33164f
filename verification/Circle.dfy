/** The circle of ring positions: who precedes whom, said without lists or indices. */
module Circle {
  import opened Types

  /** `x` lies strictly inside the clockwise arc from `a` to `p`. From a point to itself the arc is the whole
      circle without that point. */
  predicate Inside(a: int, p: int, x: int) {
    if a < p then a < x < p
    else if a > p then x > a || x < p
    else x != a
  }

  /** No member lies strictly between `a` and `p` on ring `r`: once both are on the ring, `a` directly precedes `p`. */
  ghost predicate Precedes(h: RingHash, r: nat, members: set<Id>, a: Id, p: Id) {
    forall m :: m in members ==> !Inside(h(r, a), h(r, p), h(r, m))
  }

  /** One of the two directly precedes the other. */
  ghost predicate NextTo(h: RingHash, r: nat, members: set<Id>, x: Id, y: Id) {
    Precedes(h, r, members, x, y) || Precedes(h, r, members, y, x)
  }

  /** The verdict of the predecessor check, on any two ids. An id that is not on the ring counts as its own
      predecessor. */
  ghost predicate IsPrev(h: RingHash, r: nat, members: set<Id>, p: Id, a: Id) {
    Precedes(h, r, members, a, p) || (a == p && p !in members)
  }

  /** The end points themselves never lie inside an arc, so it does not matter whether they are members. */
  lemma EndpointsDoNotCount(h: RingHash, r: nat, members: set<Id>, a: Id, p: Id)
    requires a != p && Injective(h)
    ensures Precedes(h, r, members + {a, p}, a, p) <==> Precedes(h, r, members, a, p)
  {
    var all := members + {a, p};
    assert forall m :: m in members ==> m in all;
  }

  /** A member has at most one direct predecessor among the members, and at most one direct successor. */
  lemma NeighbourUnique(h: RingHash, r: nat, members: set<Id>, x: Id, y: Id, z: Id)
    requires Injective(h) && y in members && z in members
    ensures Precedes(h, r, members, y, x) && Precedes(h, r, members, z, x) ==> y == z
    ensures Precedes(h, r, members, x, y) && Precedes(h, r, members, x, z) ==> y == z
  {
    assert Apart(h, r, y, z);
  }

  /** With its direct successor and predecessor at hand, an id is next to those two members and to no other. */
  lemma NextToAre(h: RingHash, r: nat, members: set<Id>, x: Id, succ: Id, prev: Id)
    requires Injective(h) && succ in members && prev in members
    requires Precedes(h, r, members, x, succ) && Precedes(h, r, members, prev, x)
    ensures forall q :: q in members ==> (NextTo(h, r, members, x, q) <==> q == succ || q == prev)
  {
    forall q | q in members ensures NextTo(h, r, members, x, q) <==> q == succ || q == prev {
      NeighbourUnique(h, r, members, x, q, succ);
      NeighbourUnique(h, r, members, x, q, prev);
    }
  }

  /** A newcomer breaks the relation from `a` to `p` exactly by landing between them, and then it directly follows
      `a` and directly precedes `p`. */
  lemma NewcomerSplits(h: RingHash, r: nat, members: set<Id>, a: Id, p: Id, q: Id)
    requires Injective(h) && q !in members && a in members && p in members && Precedes(h, r, members, a, p)
    ensures !Precedes(h, r, members + {q}, a, p) ==>
      Precedes(h, r, members + {q}, a, q) && Precedes(h, r, members + {q}, q, p)
  {
    var more := members + {q};
    if !Precedes(h, r, more, a, p) {
      assert Inside(h(r, a), h(r, p), h(r, q));
      forall m | m in more
        ensures !Inside(h(r, a), h(r, q), h(r, m)) && !Inside(h(r, q), h(r, p), h(r, m))
      {
        if m != q {
          assert !Inside(h(r, a), h(r, p), h(r, m));
          assert Apart(h, r, m, q);
        }
      }
    }
  }
}
