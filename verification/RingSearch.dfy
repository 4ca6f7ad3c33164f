/** The binary searches over a ring's sorted list, and index arithmetic on the circle. */
module RingSearch {
  import opened Types
  import opened Circle

  datatype RingId = RingId(id: Id, hash: int) {
    function Compare(other: RingId): int {
      if hash < other.hash then -1 else if hash > other.hash then 1 else 0
    }
  }

  ghost predicate Sorted(s: seq<RingId>) {
    forall i, j :: 0 <= i < j < |s| ==> s[i].hash < s[j].hash
  }

  /** `i` is where `hash` belongs: everything before is smaller and nothing from there on is. */
  ghost predicate LowerBound(s: seq<RingId>, hash: int, i: nat) {
    && i <= |s|
    && (forall k :: 0 <= k < i ==> s[k].hash < hash)
    && (forall k :: i <= k < |s| ==> s[k].hash >= hash)
  }

  /** No entry lies strictly inside the arc from `from` to `to`. */
  ghost predicate Follows(s: seq<RingId>, from: int, to: int) {
    forall k :: 0 <= k < |s| ==> !Inside(from, to, s[k].hash)
  }

  /** Go's remainder, which has the sign of the dividend. */
  function Rem(a: int, b: int): int
    requires b > 0
  {
    if a >= 0 then a % b else -((-a) % b)
  }

  function SuccIndex(idx: nat, length: nat): (i: nat)
    requires idx < length
    ensures i == if idx == length - 1 then 0 else idx + 1
  {
    (idx + 1) % length
  }

  function PrevIndex(idx: nat, length: nat): (i: nat)
    requires idx < length
    ensures i == if idx == 0 then length - 1 else idx - 1
  {
    var i := Rem(idx - 1, length);
    if i < 0 then i + length else i
  }

  function Succ(s: seq<RingId>, idx: nat): RingId
    requires idx < |s|
  {
    s[SuccIndex(idx, |s|)]
  }

  function Prev(s: seq<RingId>, idx: nat): RingId
    requires idx < |s|
  {
    s[PrevIndex(idx, |s|)]
  }

  function InsertAt(list: seq<RingId>, x: RingId, at: nat): seq<RingId>
    requires at <= |list|
  {
    list[..at] + [x] + list[at..]
  }

  /** Insertion before the first entry that is not smaller. The search bounds may cross; the invariant says what lies
      outside them. */
  method Insert(slice: seq<RingId>, newId: RingId, length: int) returns (ret: seq<RingId>, idx: nat)
    requires length == |slice| && Sorted(slice)
    ensures LowerBound(slice, newId.hash, idx)
    ensures ret == InsertAt(slice, newId, idx)
  {
    if length == 0 {
      return [newId], 0;
    }
    var currIdx, maxIdx := 0, length - 1;
    while currIdx < maxIdx
      invariant 0 <= currIdx < length && currIdx - 1 <= maxIdx < length
      invariant forall k :: 0 <= k < currIdx ==> slice[k].hash < newId.hash
      invariant forall k :: maxIdx < k < length ==> slice[k].hash >= newId.hash
      decreases maxIdx - currIdx
    {
      var mid := (currIdx + maxIdx) / 2;
      var cmp := slice[mid].Compare(newId);
      if cmp == -1 {
        currIdx := mid + 1;
      } else {
        maxIdx := mid - 1;
      }
    }
    if slice[currIdx].Compare(newId) == -1 {
      currIdx := currIdx + 1;
    }
    ret, idx := slice[..currIdx] + ([newId] + slice[currIdx..]), currIdx;
  }

  /** Finds the entry with a given position, if there is one. */
  method Search(slice: seq<RingId>, searchId: RingId, length: int) returns (idx: Option<nat>)
    requires length == |slice| && Sorted(slice)
    ensures idx.Some? ==> idx.value < |slice| && slice[idx.value].hash == searchId.hash
    ensures idx.None? ==> forall k :: 0 <= k < |slice| ==> slice[k].hash != searchId.hash
  {
    if length == 0 {
      return None;
    }
    var currIdx, maxIdx := 0, length - 1;
    while currIdx < maxIdx
      invariant 0 <= currIdx < length && currIdx - 1 <= maxIdx < length
      invariant forall k :: 0 <= k < currIdx ==> slice[k].hash < searchId.hash
      invariant forall k :: maxIdx < k < length ==> slice[k].hash > searchId.hash
      decreases maxIdx - currIdx
    {
      var mid := (currIdx + maxIdx) / 2;
      var cmp := slice[mid].Compare(searchId);
      if cmp == -1 {
        currIdx := mid + 1;
      } else if cmp == 1 {
        maxIdx := mid - 1;
      } else {
        return Some(mid);
      }
    }
    if slice[currIdx].Compare(searchId) == 0 {
      idx := Some(currIdx);
    } else {
      idx := None;
    }
  }

  /** The circular neighbours of a position, whether or not an entry is there. */
  method FindSuccAndPrev(slice: seq<RingId>, searchId: RingId, length: int) returns (succ: RingId, prev: RingId)
    requires length == |slice| > 0 && Sorted(slice)
    ensures succ in slice && prev in slice
    ensures Follows(slice, searchId.hash, succ.hash) && Follows(slice, prev.hash, searchId.hash)
  {
    var currIdx, maxIdx := 0, length - 1;
    while currIdx < maxIdx
      invariant 0 <= currIdx < length && currIdx - 1 <= maxIdx < length
      invariant forall k :: 0 <= k < currIdx ==> slice[k].hash < searchId.hash
      invariant forall k :: maxIdx < k < length ==> slice[k].hash > searchId.hash
      decreases maxIdx - currIdx
    {
      var mid := (currIdx + maxIdx) / 2;
      var cmp := slice[mid].Compare(searchId);
      if cmp == -1 {
        currIdx := mid + 1;
      } else if cmp == 1 {
        maxIdx := mid - 1;
      } else {
        NeighboursOfEntry(slice, mid);
        return Succ(slice, mid), Prev(slice, mid);
      }
    }
    var cmp := slice[currIdx].Compare(searchId);
    if cmp == -1 {
      prev := slice[currIdx];
      succ := Succ(slice, currIdx);
      NeighboursAfterEntry(slice, currIdx, searchId.hash);
    } else if cmp == 1 {
      succ := slice[currIdx];
      prev := Prev(slice, currIdx);
      NeighboursBeforeEntry(slice, currIdx, searchId.hash);
    } else {
      succ := Succ(slice, currIdx);
      prev := Prev(slice, currIdx);
      NeighboursOfEntry(slice, currIdx);
    }
  }

  // ---------------------------------------------------------------------
  // Sorted lists as circles
  // ---------------------------------------------------------------------

  /** The list neighbours are the neighbours on the circle, and the only ones. */
  lemma ListNeighbours(s: seq<RingId>, i: nat, j: nat)
    requires Sorted(s) && i < |s| && j < |s|
    ensures Follows(s, s[i].hash, s[j].hash) <==> j == SuccIndex(i, |s|)
    ensures j == SuccIndex(i, |s|) <==> i == PrevIndex(j, |s|)
  {
    var next := SuccIndex(i, |s|);
    if j != next {
      assert Inside(s[i].hash, s[j].hash, s[next].hash);
    }
  }

  /** The neighbours of an entry's own position. */
  lemma NeighboursOfEntry(s: seq<RingId>, i: nat)
    requires Sorted(s) && i < |s|
    ensures Follows(s, s[i].hash, Succ(s, i).hash) && Follows(s, Prev(s, i).hash, s[i].hash)
  {
  }

  /** The neighbours of a free position just after entry `i`. */
  lemma NeighboursAfterEntry(s: seq<RingId>, i: nat, hash: int)
    requires Sorted(s) && i < |s| && s[i].hash < hash && forall k :: i < k < |s| ==> s[k].hash > hash
    ensures Follows(s, hash, Succ(s, i).hash) && Follows(s, s[i].hash, hash)
  {
  }

  /** The neighbours of a free position just before entry `i`. */
  lemma NeighboursBeforeEntry(s: seq<RingId>, i: nat, hash: int)
    requires Sorted(s) && i < |s| && hash < s[i].hash && forall k :: 0 <= k < i ==> s[k].hash < hash
    ensures Follows(s, hash, s[i].hash) && Follows(s, Prev(s, i).hash, hash)
  {
  }

  /** Inserting at the lower bound keeps the list sorted, provided the position is free. */
  lemma InsertKeepsSorted(s: seq<RingId>, x: RingId, i: nat)
    requires Sorted(s) && LowerBound(s, x.hash, i)
    requires forall k :: 0 <= k < |s| ==> s[k].hash != x.hash
    ensures Sorted(s[..i] + [x] + s[i..])
  {
  }
}
