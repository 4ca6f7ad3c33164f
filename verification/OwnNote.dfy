/** How a node answers accusations of itself: its own epoch, its own mask and the count of rings it has given up. */
module OwnNote {
  import opened Types
  import opened Mask

  datatype Own = Own(epoch: nat, mask: nat, deactivated: nat)

  /** A fresh node: epoch 1 and every ring active. */
  function Fresh(numRings: nat): Own {
    Own(1, Block(0, numRings), 0)
  }

  /** The first inactive ring index at or after `from` other than `skip`, or `numRings` when there is none. */
  function FirstInactive(mask: nat, skip: nat, from: nat, numRings: nat): (i: nat)
    requires from <= numRings
    ensures from <= i <= numRings
    ensures i < numRings ==> i != skip && !HasBit(mask, i)
    ensures forall k: nat :: from <= k < i ==> k == skip || HasBit(mask, k)
    decreases numRings - from
  {
    if from == numRings || (from != skip && !HasBit(mask, from)) then from
    else FirstInactive(mask, skip, from + 1, numRings)
  }

  /** `ringNumber - 1` in 32-bit unsigned arithmetic. */
  function RingIndex(ringNumber: nat): nat {
    if ringNumber == 0 then 0xFFFF_FFFF else ringNumber - 1
  }

  /** The mask with `ringNumber` switched off, or nothing when that ring cannot or need not be switched off.
      Once `MaxByz` rings are off, another one is switched back on first. */
  function Deactivate(own: Own, ringNumber: nat, numRings: nat): Option<Own>
    requires numRings >= 1
  {
    var ringIdx := RingIndex(ringNumber);
    if MaxByz(numRings) == 0 || ringIdx > numRings - 1 || !HasBit(own.mask, ringIdx) then None
    else if own.deactivated == MaxByz(numRings) then
      var mask := SetBit(own.mask, FirstInactive(own.mask, ringIdx, 0, numRings));
      Some(own.(mask := ClearBit(mask, ringIdx)))
    else
      Some(own.(mask := ClearBit(own.mask, ringIdx), deactivated := own.deactivated + 1))
  }

  /** Answering an accusation made at `epoch` on `ringNumber`: only one about the current epoch is answered. */
  function Answer(own: Own, epoch: nat, ringNumber: nat, numRings: nat): Option<Own>
    requires numRings >= 1
  {
    if own.epoch != epoch then None
    else
      var next := Deactivate(own, ringNumber, numRings);
      Some((if next.Some? then next.value else own).(epoch := own.epoch + 1))
  }

  /** What every answer keeps: the mask stays within the rings and the count of inactive rings is exact. */
  ghost predicate Sound(own: Own, numRings: nat) {
    && own.epoch >= 1
    && Confined(own.mask, numRings)
    && Disabled(own.mask, numRings) == own.deactivated <= MaxByz(numRings)
  }

  // ---------------------------------------------------------------------
  // Counting
  // ---------------------------------------------------------------------

  /** Words that differ in at most one bit below `k` differ in count by that bit. */
  lemma {:induction false} CountChange(a: nat, b: nat, p: nat, k: nat)
    requires forall i: nat :: i != p ==> (HasBit(a, i) <==> HasBit(b, i))
    requires HasBit(a, p) && !HasBit(b, p)
    ensures CountBelow(a, k) == CountBelow(b, k) + if p < k then 1 else 0
  {
    if k > 0 {
      CountChange(a, b, p, k - 1);
    }
  }

  /** Switching one ring off adds one inactive ring and keeps the mask within the rings. */
  lemma SwitchOff(mask: nat, p: nat, numRings: nat)
    requires p < numRings <= WORD && HasBit(mask, p) && Confined(mask, numRings)
    ensures Confined(ClearBit(mask, p), numRings) && !HasBit(ClearBit(mask, p), p)
    ensures Disabled(ClearBit(mask, p), numRings) == Disabled(mask, numRings) + 1
  {
    forall i: nat ensures HasBit(ClearBit(mask, p), i) <==> i != p && HasBit(mask, i) {
      BitHelpers(mask, p, i);
    }
    CountChange(mask, ClearBit(mask, p), p, numRings);
  }

  /** Switching one ring back on removes one inactive ring and keeps the mask within the rings. */
  lemma SwitchOn(mask: nat, p: nat, numRings: nat)
    requires p < numRings <= WORD && !HasBit(mask, p) && Confined(mask, numRings)
    ensures Confined(SetBit(mask, p), numRings)
    ensures forall i: nat :: HasBit(SetBit(mask, p), i) <==> i == p || HasBit(mask, i)
    ensures Disabled(SetBit(mask, p), numRings) == Disabled(mask, numRings) - 1
  {
    forall i: nat ensures HasBit(SetBit(mask, p), i) <==> i == p || HasBit(mask, i) {
      BitHelpers(mask, p, i);
    }
    CountChange(SetBit(mask, p), mask, p, numRings);
  }

  // ---------------------------------------------------------------------
  // Results
  // ---------------------------------------------------------------------

  lemma FreshIsSound(numRings: nat)
    requires 1 <= numRings <= WORD
    ensures Sound(Fresh(numRings), numRings)
  {
    forall i: nat ensures HasBit(Block(0, numRings), i) <==> i < numRings {
      BlockBits(0, numRings, i);
    }
    CountSplit(Block(0, numRings), 0, numRings);
  }

  /** When `MaxByz` rings are already off, the search always finds one to switch back on: it never falls off the
      end of the rings. */
  lemma SomeRingToReactivate(own: Own, ringIdx: nat, numRings: nat)
    requires 1 <= numRings <= WORD && Sound(own, numRings)
    requires MaxByz(numRings) >= 1 && own.deactivated == MaxByz(numRings)
    requires ringIdx < numRings && HasBit(own.mask, ringIdx)
    ensures FirstInactive(own.mask, ringIdx, 0, numRings) < numRings
  {
    if FirstInactive(own.mask, ringIdx, 0, numRings) == numRings {
      CountSplit(own.mask, 0, numRings);
    }
  }

  /** A successful deactivation keeps the bookkeeping exact and leaves the accused ring off. */
  lemma DeactivateKeeps(own: Own, ringNumber: nat, numRings: nat)
    requires 1 <= numRings <= WORD && Sound(own, numRings)
    requires Deactivate(own, ringNumber, numRings).Some?
    ensures var next := Deactivate(own, ringNumber, numRings).value;
      Sound(next, numRings) && next.epoch == own.epoch && 1 <= ringNumber <= numRings
      && !HasBit(next.mask, ringNumber - 1)
  {
    var ringIdx := RingIndex(ringNumber);
    if own.deactivated == MaxByz(numRings) {
      SomeRingToReactivate(own, ringIdx, numRings);
      var on := FirstInactive(own.mask, ringIdx, 0, numRings);
      SwitchOn(own.mask, on, numRings);
      SwitchOff(SetBit(own.mask, on), ringIdx, numRings);
    } else {
      SwitchOff(own.mask, ringIdx, numRings);
    }
  }

  /** Answering keeps the mask acceptable, raises the epoch by one, and disables the accused ring whenever a ring
      may be disabled at all. */
  lemma AnswerKeeps(own: Own, epoch: nat, ringNumber: nat, numRings: nat)
    requires 1 <= numRings <= WORD && Sound(own, numRings)
    ensures Answer(own, epoch, ringNumber, numRings).Some? <==> epoch == own.epoch
    ensures Answer(own, epoch, ringNumber, numRings).Some? ==>
      var next := Answer(own, epoch, ringNumber, numRings).value;
      && Sound(next, numRings) && ValidMask(next.mask, numRings)
      && next.epoch == own.epoch + 1
      && (MaxByz(numRings) >= 1 && 1 <= ringNumber <= numRings ==> IsRingDisabled(next.mask, ringNumber, numRings))
  {
    if epoch == own.epoch {
      var next := Answer(own, epoch, ringNumber, numRings).value;
      if Deactivate(own, ringNumber, numRings).Some? {
        DeactivateKeeps(own, ringNumber, numRings);
      }
      ConfinedMask(next.mask, numRings);
    }
  }

  /** `i` is the first ring index other than `skip` that is off. */
  ghost predicate IsFirstOff(mask: nat, skip: nat, numRings: nat, i: nat) {
    i < numRings && i != skip && !HasBit(mask, i) && forall j: nat :: j < i && j != skip ==> HasBit(mask, j)
  }

  lemma FirstOffIs(mask: nat, skip: nat, numRings: nat, i: nat)
    requires FirstInactive(mask, skip, 0, numRings) < numRings
    ensures IsFirstOff(mask, skip, numRings, i) <==> i == FirstInactive(mask, skip, 0, numRings)
  {
    var on := FirstInactive(mask, skip, 0, numRings);
    assert !HasBit(mask, on);
    if i < on {
      assert i == skip || HasBit(mask, i);
    }
  }

  /** Exactly which rings are on after an answer. Where no ring may be given up, or the accused ring does not exist or
      is off already, the mask stays. Otherwise the accused ring goes off, and once the limit is reached the first other
      ring that was off comes back on for it. */
  lemma AnswerExactly(own: Own, ringNumber: nat, numRings: nat, i: nat)
    requires 1 <= numRings <= WORD && Sound(own, numRings)
    ensures var next := Answer(own, own.epoch, ringNumber, numRings).value;
      var gives := MaxByz(numRings) >= 1 && 1 <= ringNumber <= numRings && HasBit(own.mask, ringNumber - 1);
      var full := own.deactivated == MaxByz(numRings);
      && next.deactivated == own.deactivated + (if gives && !full then 1 else 0)
      && (!gives ==> next.mask == own.mask)
      && (gives ==>
           (HasBit(next.mask, i) <==>
             && i != ringNumber - 1
             && (HasBit(own.mask, i) || (full && IsFirstOff(own.mask, ringNumber - 1, numRings, i)))))
  {
    var ringIdx := RingIndex(ringNumber);
    if MaxByz(numRings) >= 1 && ringIdx < numRings && HasBit(own.mask, ringIdx) {
      if own.deactivated == MaxByz(numRings) {
        SomeRingToReactivate(own, ringIdx, numRings);
        var on := FirstInactive(own.mask, ringIdx, 0, numRings);
        FirstOffIs(own.mask, ringIdx, numRings, i);
        BitHelpers(own.mask, on, i);
        BitHelpers(SetBit(own.mask, on), ringIdx, i);
      } else {
        BitHelpers(own.mask, ringIdx, i);
      }
    }
  }

  // ---------------------------------------------------------------------
  // Whole runs of accusations
  // ---------------------------------------------------------------------

  /** The accusations of a run, as (epoch, ring number) pairs, handled one after the other. */
  function AnswerAll(own: Own, accusations: seq<(nat, nat)>, numRings: nat): Own
    requires numRings >= 1
  {
    if accusations == [] then own
    else
      var before := AnswerAll(own, accusations[..|accusations| - 1], numRings);
      var last := accusations[|accusations| - 1];
      var next := Answer(before, last.0, last.1, numRings);
      if next.Some? then next.value else before
  }

  /** The epochs of the answered accusations, in order. */
  function AnsweredEpochs(own: Own, accusations: seq<(nat, nat)>, numRings: nat): seq<nat>
    requires numRings >= 1
  {
    if accusations == [] then []
    else
      var rest := accusations[..|accusations| - 1];
      var last := accusations[|accusations| - 1];
      var before := AnswerAll(own, rest, numRings);
      AnsweredEpochs(own, rest, numRings) +
      if Answer(before, last.0, last.1, numRings).Some? then [last.0] else []
  }

  /** Over any sequence of self-accusations the bookkeeping stays exact, the mask stays acceptable, the epoch grows
      by one per answered accusation, and the answered epochs are exactly the consecutive ones: none is answered
      twice. */
  lemma {:induction false} AnswerRuns(own: Own, accusations: seq<(nat, nat)>, numRings: nat)
    requires 1 <= numRings <= WORD && Sound(own, numRings)
    ensures var end := AnswerAll(own, accusations, numRings);
      var answered := AnsweredEpochs(own, accusations, numRings);
      && Sound(end, numRings) && ValidMask(end.mask, numRings)
      && end.epoch == own.epoch + |answered|
      && forall i :: 0 <= i < |answered| ==> answered[i] == own.epoch + i
  {
    if accusations == [] {
      ConfinedMask(own.mask, numRings);
    } else {
      var rest := accusations[..|accusations| - 1];
      var last := accusations[|accusations| - 1];
      AnswerRuns(own, rest, numRings);
      AnswerKeeps(AnswerAll(own, rest, numRings), last.0, last.1, numRings);
    }
  }
}
