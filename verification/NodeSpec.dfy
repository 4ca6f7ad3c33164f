/** The state of one node and the effect of every protocol step on it. */
module NodeSpec {
  import opened Types
  import opened Mask
  import opened OwnNote
  import opened Circle
  import opened PeerSpec

  datatype Config = Config(numRings: nat, hash: RingHash, hasCa: bool, removalTimeout: int)

  /** What starting a node takes: a ring, and positions that are distinct on every ring. */
  ghost predicate Runnable(cfg: Config) {
    cfg.numRings >= 1 && Injective(cfg.hash)
  }

  /** A configuration in which every ring has its bit in a mask. */
  ghost predicate GoodConfig(cfg: Config) {
    Runnable(cfg) && cfg.numRings <= WORD
  }

  datatype Timer = Timer(observer: Id, timeStamp: int, lastNote: Note, accused: Id)

  /** A gossip request handed to the communication layer. */
  datatype Request = Request(to: set<Id>, state: State)

  /** One node. `signed` records every signature the node has made and `sent` every request it has issued. */
  datatype NodeState = NodeState(
    certificate: Certificate, note: Note, full: map<Id, PeerState>, live: set<Id>, timers: map<Id, Timer>,
    deactivated: nat, gossipRing: nat, monitorRing: nat, signed: set<Signature>, sent: seq<Request>)
  {
    function Me(): Id {
      certificate.id
    }

    /** The members of every ring: the live peers and the node itself. */
    function Members(): set<Id> {
      live + {Me()}
    }

    function Put(id: Id, p: PeerState): NodeState {
      this.(full := full[id := p])
    }
  }

  // ---------------------------------------------------------------------
  // View
  // ---------------------------------------------------------------------

  /** Whether the accuser check lets `accuser` accuse `accused` on a ring. */
  ghost predicate ValidAccuser(cfg: Config, n: NodeState, accused: Id, accuser: Id, ringNum: nat) {
    IsRing(ringNum, cfg.numRings) && IsPrev(cfg.hash, ringNum, n.Members(), accused, accuser)
  }

  /** After `p` joined, the accusation of its successor by its predecessor is out of date. */
  ghost predicate OutOfDate(cfg: Config, before: set<Id>, p: Id, q: Id, r: nat, slot: Option<Accusation>) {
    && slot.Some? && IsRing(r, cfg.numRings) && p !in before
    && q in before && Precedes(cfg.hash, r, before + {p}, p, q)
    && slot.value.accuser in before && Precedes(cfg.hash, r, before + {p}, slot.value.accuser, p)
  }

  ghost function Prune(cfg: Config, before: set<Id>, p: Id, q: Id, s: PeerState): PeerState {
    s.(accusations := map r | r in s.accusations ::
      if OutOfDate(cfg, before, p, q, r, s.accusations[r]) then None else s.accusations[r])
  }

  /** A peer joins the live view and every ring. */
  ghost function AddLive(cfg: Config, n: NodeState, p: Id): NodeState {
    if p in n.live then n
    else n.(
      live := n.live + {p},
      full := map q | q in n.full :: Prune(cfg, n.Members(), p, q, n.full[q]))
  }

  function RemoveLive(n: NodeState, p: Id): NodeState {
    n.(live := n.live - {p})
  }

  function AddFull(cfg: Config, n: NodeState, certificate: Certificate): NodeState {
    if certificate.id in n.full then n
    else match NewPeer(certificate, cfg.numRings)
      case None => n
      case Some(p) => n.Put(certificate.id, p)
  }

  /** A new timer starts now; an existing one is only moved to a newer note and keeps its start. */
  function StartTimer(n: NodeState, accused: Id, note: Option<Note>, observer: Id, now: int): NodeState {
    if note.None? || note.value.id != accused then n
    else if accused !in n.timers then n.(timers := n.timers[accused := Timer(observer, now, note.value, accused)])
    else if n.timers[accused].lastNote.epoch < note.value.epoch then
      n.(timers := n.timers[accused := Timer(observer, n.timers[accused].timeStamp, note.value, accused)])
    else n
  }

  function EnsureTimer(n: NodeState, p: Id, observer: Id, now: int): NodeState
    requires p in n.full
  {
    if p !in n.timers && p in n.live then StartTimer(n, p, n.full[p].note, observer, now) else n
  }

  function Expired(cfg: Config, n: NodeState, now: int): set<Id> {
    set p | p in n.timers && now - n.timers[p].timeStamp > cfg.removalTimeout
  }

  function CheckTimeouts(cfg: Config, n: NodeState, now: int): NodeState {
    n.(live := n.live - Expired(cfg, n, now), timers := n.timers - Expired(cfg, n, now))
  }

  /** The next ring in rotation. */
  function NextRing(ring: nat, numRings: nat): nat {
    var next := (ring + 1) % (numRings + 1);
    if next == 0 then 1 else next
  }

  /** The node's neighbours on a ring, without itself. */
  ghost function RingNeighbours(cfg: Config, n: NodeState, r: nat): set<Id> {
    set q | q in n.live && q != n.Me() && IsRing(r, cfg.numRings)
      && NextTo(cfg.hash, r, n.Members(), n.Me(), q)
  }

  /** Whether `q` is the node's successor on ring `r`. */
  ghost predicate IsTarget(cfg: Config, n: NodeState, r: nat, q: Id) {
    q in n.live && q != n.Me() && IsRing(r, cfg.numRings) && Precedes(cfg.hash, r, n.Members(), n.Me(), q)
  }

  /** The node's successor on a ring, if that is another peer. */
  ghost function RingSuccessor(cfg: Config, n: NodeState, r: nat): Option<Id> {
    if exists q :: IsTarget(cfg, n, r, q) then
      var q :| IsTarget(cfg, n, r, q);
      Some(q)
    else None
  }

  /** On some ring one of the two directly precedes the other. */
  ghost predicate NeighbourOnSomeRing(cfg: Config, n: NodeState, x: Id, y: Id) {
    exists r :: IsRing(r, cfg.numRings) && NextTo(cfg.hash, r, n.Members(), x, y)
  }

  ghost predicate ShouldBeNeighbour(cfg: Config, n: NodeState, id: Id) {
    id == n.Me() || NeighbourOnSomeRing(cfg, n, n.Me(), id)
  }

  /** The neighbours of an id on all rings. */
  ghost function FindNeighbours(cfg: Config, n: NodeState, id: Id): set<Id> {
    set q | q in n.Members() && NeighbourOnSomeRing(cfg, n, id, q)
  }

  // ---------------------------------------------------------------------
  // The node's own note
  // ---------------------------------------------------------------------

  /** A node's own note, signed by itself. */
  function SelfNote(id: Id, epoch: nat, mask: nat): Note {
    Note(id, epoch, mask, Signature(id, NoteStatement(id, epoch, mask)))
  }

  function OwnOf(n: NodeState): Own {
    Own(n.note.epoch, n.note.mask, n.deactivated)
  }

  /** Replaces and signs the node's own note. */
  function Publish(n: NodeState, own: Own): NodeState {
    var note := SelfNote(n.Me(), own.epoch, own.mask);
    n.(note := note, deactivated := own.deactivated, signed := n.signed + {note.signature})
  }

  /** Sends a request to the neighbours on the current gossip ring and turns to the next ring. */
  ghost function SendToPartners(cfg: Config, n: NodeState, hosts: map<Id, nat>): NodeState {
    n.(sent := n.sent + [Request(RingNeighbours(cfg, n, n.gossipRing), State(hosts, n.note.ToMsg()))],
       gossipRing := NextRing(n.gossipRing, cfg.numRings))
  }

  // ---------------------------------------------------------------------
  // Evaluating what arrives
  // ---------------------------------------------------------------------

  /** The certificate passes the checks that do not depend on the view. */
  predicate Trusted(cfg: Config, certificate: Certificate) {
    |certificate.id.bytes| == ID_SIZE && if cfg.hasCa then certificate.caSigned else certificate.selfSigned
  }

  function EvalCertificate(cfg: Config, n: NodeState, certificate: Certificate): (NodeState, Outcome) {
    if n.Me() == certificate.id then (n, SelfCertificate)
    else if |certificate.id.bytes| != ID_SIZE then (n, InvalidId)
    else if !Trusted(cfg, certificate) then (n, BadCertificate)
    else (AddFull(cfg, n, certificate), Ok)
  }

  ghost function EvalNote(cfg: Config, n: NodeState, m: NoteMsg): (NodeState, Outcome) {
    if m.signature.None? then (n, InvalidSignature)
    else if m.id !in n.full then (n, NoPeer)
    else
      var p := n.full[m.id];
      var signature := m.signature.value;
      if p.note.Some? && !p.note.value.IsMoreRecent(m.epoch) then (n, OldNote)
      else if !ValidMask(m.mask, cfg.numRings) then (n, InvalidMask)
      else if !Verify(NoteStatement(m.id, m.epoch, m.mask), signature, p.certificate.id) then (n, InvalidSignature)
      else if !IsAccused(p) then
        var n1 := n.Put(m.id, AddNote(p, m.mask, m.epoch, signature));
        (AddLive(cfg, n1, m.id), Ok)
      else
        var p1 := AddNote(Invalidate(p, m.epoch), m.mask, m.epoch, signature);
        var n1 := n.Put(m.id, p1);
        if IsAccused(p1) then (n1, Ok)
        else (AddLive(cfg, n1.(timers := n1.timers - {m.id}), m.id), Ok)
  }

  /** An accusation of the node itself: answered when it comes from the right predecessor, is signed and names the
      current epoch. */
  ghost function EvalSelfAccusation(cfg: Config, n: NodeState, m: AccusationMsg): (NodeState, Outcome)
    requires cfg.numRings >= 1 && m.signature.Some?
  {
    if !ValidAccuser(cfg, n, n.Me(), m.accuser, m.ringNum) then (n, InvalidAccuser)
    else if !Verify(AccusationStatement(m.accused, m.accuser, m.ringNum, m.epoch), m.signature.value, m.accuser)
    then (n, InvalidSignature)
    else match Answer(OwnOf(n), m.epoch, m.ringNum, cfg.numRings)
      case None => (n, InvalidSelfAccusation)
      case Some(own) => (SendToPartners(cfg, Publish(n, own), map[]), Ok)
  }

  /** An accusation of another peer. */
  ghost function EvalPeerAccusation(cfg: Config, n: NodeState, m: AccusationMsg, now: int): (NodeState, Outcome)
    requires cfg.numRings >= 1 && m.accused in n.full && m.signature.Some?
  {
    var p := n.full[m.accused];
    var slot := RingAccusation(p, m.ringNum);
    if slot.Some? && slot.value.Equal(m.accused, m.accuser, m.ringNum, m.epoch) then
      (EnsureTimer(n, m.accused, m.accuser, now), AccusationAlreadyExists)
    else if p.note.None? || p.note.value.epoch != m.epoch then (n, InvalidEpoch)
    else if IsRingDisabled(p.note.value.mask, m.ringNum, cfg.numRings) then (n, DisabledRing)
    else if !ValidAccuser(cfg, n, m.accused, m.accuser, m.ringNum) then (n, InvalidAccuser)
    else if !Verify(AccusationStatement(m.accused, m.accuser, m.ringNum, m.epoch), m.signature.value, m.accuser)
    then (n, InvalidSignature)
    else
      var (p1, outcome) := AddAccusation(p, Accusation(m.accused, m.accuser, m.ringNum, m.epoch, m.signature.value));
      if outcome != Ok then (n, outcome)
      else (EnsureTimer(n.Put(m.accused, p1), m.accused, m.accuser, now), Ok)
  }

  /** Both ends of an accusation are known, and the accused other than the node itself has a note. */
  predicate KnownParties(n: NodeState, m: AccusationMsg) {
    && (m.accuser == n.Me() || m.accuser in n.full)
    && (m.accused == n.Me() || (m.accused in n.full && n.full[m.accused].note.Some?))
  }

  ghost function EvalAccusation(cfg: Config, n: NodeState, m: AccusationMsg, now: int): (NodeState, Outcome)
    requires cfg.numRings >= 1 && KnownParties(n, m)
  {
    if m.signature.None? then (n, InvalidSignature)
    else if m.accused == n.Me() then EvalSelfAccusation(cfg, n, m)
    else EvalPeerAccusation(cfg, n, m, now)
  }

  // ---------------------------------------------------------------------
  // Merging a reply
  // ---------------------------------------------------------------------

  function MergeCertificate(cfg: Config, n: NodeState, c: Certificate): NodeState {
    EvalCertificate(cfg, n, c).0
  }

  ghost function MergeNote(cfg: Config, n: NodeState, m: NoteMsg): NodeState {
    if m.id == n.Me() then n else EvalNote(cfg, n, m).0
  }

  ghost function MergeAccusation(cfg: Config, n: NodeState, m: AccusationMsg, now: int): NodeState
    requires cfg.numRings >= 1
  {
    if KnownParties(n, m) then EvalAccusation(cfg, n, m, now).0 else n
  }

  function MergeCertificates(cfg: Config, n: NodeState, cs: seq<Certificate>): NodeState {
    if cs == [] then n
    else MergeCertificate(cfg, MergeCertificates(cfg, n, cs[..|cs| - 1]), cs[|cs| - 1])
  }

  ghost function MergeNotes(cfg: Config, n: NodeState, ms: seq<NoteMsg>): NodeState {
    if ms == [] then n
    else MergeNote(cfg, MergeNotes(cfg, n, ms[..|ms| - 1]), ms[|ms| - 1])
  }

  ghost function MergeAccusations(cfg: Config, n: NodeState, ms: seq<AccusationMsg>, now: int): NodeState
    requires cfg.numRings >= 1
  {
    if ms == [] then n
    else MergeAccusation(cfg, MergeAccusations(cfg, n, ms[..|ms| - 1], now), ms[|ms| - 1], now)
  }

  /** Handling the reply to a gossip request: certificates first, then notes, then accusations. */
  ghost function MergeReply(cfg: Config, n: NodeState, reply: Reply, now: int): NodeState
    requires cfg.numRings >= 1
  {
    MergeAccusations(cfg, MergeNotes(cfg, MergeCertificates(cfg, n, reply.certificates), reply.notes),
                     reply.accusations, now)
  }
}
