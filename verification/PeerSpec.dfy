/** What a node stores about one peer, and the updates of that record. */
module PeerSpec {
  import opened Types

  /** Every ring number has a slot, empty while the peer is not accused on that ring. */
  datatype PeerState =
    PeerState(certificate: Certificate, note: Option<Note>, accusations: map<nat, Option<Accusation>>)

  predicate IsRing(r: nat, numRings: nat) {
    1 <= r <= numRings
  }

  function RingNums(numRings: nat): (rs: set<nat>)
    ensures forall r :: r in rs <==> IsRing(r, numRings)
  {
    set r: nat | r <= numRings && IsRing(r, numRings)
  }

  /** A certificate names a usable peer: it has two addresses, an id and an ECDSA key. */
  predicate Usable(certificate: Certificate) {
    certificate.localityFields >= 2 && certificate.id.bytes != "" && certificate.ecdsaKey
  }

  function NewPeer(certificate: Certificate, numRings: nat): Option<PeerState> {
    if numRings == 0 || !Usable(certificate) then None
    else Some(PeerState(certificate, None, map r | r in RingNums(numRings) :: None))
  }

  predicate IsAccused(p: PeerState) {
    exists r :: r in p.accusations && p.accusations[r].Some?
  }

  function Accusations(p: PeerState): set<Accusation> {
    set r | r in p.accusations && p.accusations[r].Some? :: p.accusations[r].value
  }

  function RingAccusation(p: PeerState, ringNum: nat): Option<Accusation> {
    if ringNum in p.accusations then p.accusations[ringNum] else None
  }

  function ClearRing(p: PeerState, ringNum: nat): PeerState {
    if ringNum in p.accusations then p.(accusations := p.accusations[ringNum := None]) else p
  }

  /** Only a strictly later epoch replaces a stored note. */
  function AddNote(p: PeerState, mask: nat, epoch: nat, signature: Signature): PeerState {
    if p.note.None? || p.note.value.IsMoreRecent(epoch)
    then p.(note := Some(Note(p.certificate.id, epoch, mask, signature)))
    else p
  }

  function AddAccusation(p: PeerState, a: Accusation): (PeerState, Outcome) {
    if p.note.Some? && p.note.value.epoch != a.epoch then (p, OldEpoch)
    else if a.ringNum !in p.accusations then (p, InvalidRing)
    else if a.accused.bytes == "" || a.accuser.bytes == "" then (p, InvalidId)
    else (p.(accusations := p.accusations[a.ringNum := Some(a)]), Ok)
  }

  /** The accusation a node signs when it finds a peer dead. */
  function OwnAccusation(note: Note, self: Id, ringNum: nat): Accusation {
    Accusation(note.id, self, ringNum, note.epoch,
               Signature(self, AccusationStatement(note.id, self, ringNum, note.epoch)))
  }

  function CreateAccusation(p: PeerState, note: Note, self: Id, ringNum: nat): (PeerState, Outcome) {
    if ringNum !in p.accusations then (p, InvalidRing)
    else if p.accusations[ringNum].Some? && p.accusations[ringNum].value.Equal(note.id, self, ringNum, note.epoch)
    then (p, AccusationAlreadyExists)
    else (p.(accusations := p.accusations[ringNum := Some(OwnAccusation(note, self, ringNum))]), Ok)
  }

  /** Every accusation sits in the slot of its own ring. */
  predicate WellPlaced(slots: map<nat, Option<Accusation>>) {
    forall r :: r in slots && slots[r].Some? ==> slots[r].value.ringNum == r
  }

  /** Drops every accusation older than `epoch`. A dropped accusation empties the slot it names. */
  function Invalidate(p: PeerState, epoch: nat): PeerState {
    var stale := set a | a in Accusations(p) && a.IsMoreRecent(epoch) :: a.ringNum;
    p.(accusations := map r | r in p.accusations :: if r in stale then None else p.accusations[r])
  }
}
