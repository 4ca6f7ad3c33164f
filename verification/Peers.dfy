/** The mutable record of one peer. */
module Peers {
  import opened Types
  import opened PeerSpec

  class Peer {
    const certificate: Certificate
    var note: Option<Note>
    var accusations: map<nat, Option<Accusation>>

    function State(): PeerState
      reads this
    {
      PeerState(certificate, note, accusations)
    }

    constructor (certificate: Certificate, accusations: map<nat, Option<Accusation>>)
      ensures State() == PeerState(certificate, None, accusations)
    {
      this.certificate := certificate;
      this.note := None;
      this.accusations := accusations;
    }

    method SetNote(mask: nat, epoch: nat, signature: Signature)
      modifies this`note
      ensures State() == AddNote(old(State()), mask, epoch, signature)
      ensures note.Some? && epoch <= note.value.epoch
      ensures old(note).Some? ==>
        old(note).value.epoch <= note.value.epoch && (note == old(note) <==> epoch <= old(note).value.epoch)
    {
      if note.None? || note.value.IsMoreRecent(epoch) {
        note := Some(Note(certificate.id, epoch, mask, signature));
      }
    }

    method Accuse(a: Accusation) returns (outcome: Outcome)
      modifies this`accusations
      ensures (State(), outcome) == AddAccusation(old(State()), a)
      ensures accusations.Keys == old(accusations).Keys
      ensures forall r :: r in accusations && r != a.ringNum ==> accusations[r] == old(accusations)[r]
      ensures outcome == Ok ==> a.ringNum in accusations && accusations[a.ringNum] == Some(a)
      ensures outcome == Ok && note.Some? ==> a.epoch == note.value.epoch
      ensures outcome != Ok ==> accusations == old(accusations)
    {
      if note.Some? && note.value.epoch != a.epoch {
        return OldEpoch;
      }
      if a.ringNum !in accusations {
        return InvalidRing;
      }
      if a.accused.bytes == "" || a.accuser.bytes == "" {
        return InvalidId;
      }
      accusations := accusations[a.ringNum := Some(a)];
      outcome := Ok;
    }

    method Create(accused: Note, self: Id, ringNum: nat) returns (outcome: Outcome)
      modifies this`accusations
      ensures (State(), outcome) == CreateAccusation(old(State()), accused, self, ringNum)
      ensures accusations.Keys == old(accusations).Keys
      ensures forall r :: r in accusations && r != ringNum ==> accusations[r] == old(accusations)[r]
      ensures outcome != InvalidRing ==>
        && ringNum in accusations && accusations[ringNum].Some?
        && accusations[ringNum].value.Equal(accused.id, self, ringNum, accused.epoch)
      ensures outcome == Ok ==> accusations[ringNum].value.Signed()
      ensures outcome != Ok ==> accusations == old(accusations)
    {
      if ringNum !in accusations {
        return InvalidRing;
      }
      var a := accusations[ringNum];
      if a.Some? && a.value.Equal(accused.id, self, ringNum, accused.epoch) {
        return AccusationAlreadyExists;
      }
      accusations := accusations[ringNum := Some(OwnAccusation(accused, self, ringNum))];
      outcome := Ok;
    }

    method RemoveRingAccusation(ringNum: nat)
      modifies this`accusations
      ensures State() == ClearRing(old(State()), ringNum)
    {
      if ringNum in accusations {
        accusations := accusations[ringNum := None];
      }
    }

    /** Empties the slots of all accusations older than `epoch`, one after the other. */
    method RemoveOlder(epoch: nat)
      modifies this`accusations
      ensures State() == Invalidate(old(State()), epoch)
      ensures WellPlaced(old(accusations)) ==>
        && accusations.Keys == old(accusations).Keys
        && forall r :: r in accusations ==>
             var was := old(accusations)[r];
             accusations[r] == if was.Some? && was.value.epoch < epoch then None else was
    {
      var all := AllAccusations();
      ghost var before := State();
      ghost var cleared: set<nat> := {};
      var i := 0;
      while i < |all|
        invariant 0 <= i <= |all|
        invariant note == before.note
        invariant forall k :: 0 <= k < i && all[k].IsMoreRecent(epoch) ==> all[k].ringNum in cleared
        invariant forall r :: r in cleared ==>
          exists k :: 0 <= k < i && all[k].IsMoreRecent(epoch) && all[k].ringNum == r
        invariant accusations.Keys == before.accusations.Keys
        invariant forall r :: r in accusations ==>
          accusations[r] == if r in cleared then None else before.accusations[r]
      {
        var a := all[i];
        if a.IsMoreRecent(epoch) {
          RemoveRingAccusation(a.ringNum);
          cleared := cleared + {a.ringNum};
        }
        i := i + 1;
      }
      assert forall a :: a in all <==> a in ToSet(all);
      assert cleared == set a | a in Accusations(before) && a.IsMoreRecent(epoch) :: a.ringNum;
    }

    /** All accusations on record, in no particular order. */
    method AllAccusations() returns (all: seq<Accusation>)
      ensures ToSet(all) == Accusations(State())
    {
      all := [];
      var todo := accusations.Keys;
      while todo != {}
        invariant todo <= accusations.Keys
        invariant forall a :: a in all ==> a in Accusations(State())
        invariant forall r :: r in accusations && r !in todo && accusations[r].Some? ==> accusations[r].value in all
        decreases todo
      {
        var r :| r in todo;
        if accusations[r].Some? {
          all := all + [accusations[r].value];
        }
        todo := todo - {r};
      }
    }

    method Accused() returns (yes: bool)
      ensures yes <==> IsAccused(State())
    {
      var todo := accusations.Keys;
      while todo != {}
        invariant todo <= accusations.Keys
        invariant forall r :: r in accusations && r !in todo ==> accusations[r].None?
        decreases todo
      {
        var r :| r in todo;
        if accusations[r].Some? {
          return true;
        }
        todo := todo - {r};
      }
      yes := false;
    }
  }

  /** A record for a certificate, unless the certificate is unusable. */
  method MakePeer(certificate: Certificate, numRings: nat) returns (p: Peer?)
    ensures p == null <==> NewPeer(certificate, numRings).None?
    ensures p != null ==> fresh(p) && p.State() == NewPeer(certificate, numRings).value
  {
    if numRings == 0 || !Usable(certificate) {
      return null;
    }
    var slots: map<nat, Option<Accusation>> := map[];
    var i := 1;
    while i <= numRings
      invariant 1 <= i <= numRings + 1
      invariant slots.Keys == RingNums(i - 1) && forall r :: r in slots ==> slots[r] == None
    {
      slots := slots[i := None];
      i := i + 1;
    }
    p := new Peer(certificate, slots);
  }
}
