/** The steps of one node as a whole: answering requests, gossiping, monitoring, expelling, starting up. */
module Protocol {
  import opened Types
  import opened OwnNote
  import opened PeerSpec
  import opened NodeSpec

  // ---------------------------------------------------------------------
  // Answering a gossip request
  // ---------------------------------------------------------------------

  /** The certificates a merge sends: those of the hosts the requester did not report. */
  function MissingCertificates(n: NodeState, given: map<Id, nat>): set<Certificate> {
    set q | q in n.full && q !in given :: n.full[q].certificate
  }

  /** The epoch test selects a note for a host that was not reported, and for a reported host one whose epoch the
      reported epoch exceeds. */
  predicate Selected(note: Note, id: Id, given: map<Id, nat>) {
    id !in given || note.IsMoreRecent(given[id])
  }

  function PeerNotes(n: NodeState, given: map<Id, nat>): set<NoteMsg> {
    set q | q in n.full && n.full[q].note.Some? && Selected(n.full[q].note.value, q, given) ::
      n.full[q].note.value.ToMsg()
  }

  /** The notes a merge sends: those the epoch test selects among the peers' notes and the node's own. */
  function SelectedNotes(n: NodeState, given: map<Id, nat>): set<NoteMsg> {
    PeerNotes(n, given) + if Selected(n.note, n.Me(), given) then {n.note.ToMsg()} else {}
  }

  function AllAccusations(n: NodeState): set<AccusationMsg> {
    set q, a | q in n.full && a in Accusations(n.full[q]) :: a.ToMsg()
  }

  /** A reply that merges the node's view into the requester's, in any order. */
  ghost predicate IsMerge(n: NodeState, given: map<Id, nat>, reply: Reply) {
    && ToSet(reply.certificates) == MissingCertificates(n, given)
    && ToSet(reply.notes) == SelectedNotes(n, given)
    && ToSet(reply.accusations) == AllAccusations(n)
  }

  /** A reply that tells an expelled peer what it is accused of. */
  ghost predicate IsAccusationReport(p: PeerState, reply: Reply) {
    && reply.certificates == [] && reply.notes == []
    && ToSet(reply.accusations) == set a | a in Accusations(p) :: a.ToMsg()
  }

  function CertificateOf(n: NodeState, q: Id): Certificate
    requires q == n.Me() || q in n.full
  {
    if q == n.Me() then n.certificate else n.full[q].certificate
  }

  function NoteOf(n: NodeState, q: Id): Option<Note>
    requires q == n.Me() || q in n.full
  {
    if q == n.Me() then Some(n.note) else n.full[q].note
  }

  /** A reply holds the certificates of exactly the `known` parties, and the notes of those that have one. */
  ghost predicate Introduces(n: NodeState, known: set<Id>, reply: Reply)
    requires forall q :: q in known ==> q == n.Me() || q in n.full
  {
    && ToSet(reply.certificates) == (set q | q in known :: CertificateOf(n, q))
    && ToSet(reply.notes) == set q | q in known && NoteOf(n, q).Some? :: NoteOf(n, q).value.ToMsg()
  }

  /** A reply that introduces a newcomer to the node and to the newcomer's own ring neighbours. */
  ghost predicate IsIntroduction(cfg: Config, n: NodeState, remote: Id, reply: Reply) {
    && n.live <= n.full.Keys
    && reply.accusations == []
    && Introduces(n, {n.Me()} + FindNeighbours(cfg, n, remote), reply)
  }

  // ---------------------------------------------------------------------
  // The report a request carries
  // ---------------------------------------------------------------------

  /** The epoch a host is reported at: that of its note, and 0 when it has none. */
  function ReportedEpoch(p: PeerState): nat {
    if p.note.Some? then p.note.value.epoch else 0
  }

  /** A report names every known host, and nobody else, by its id made valid UTF-8. When two hosts come to share a name,
      the epoch is that of one of them. */
  ghost predicate IsReport(n: NodeState, clean: Id -> Id, hosts: map<Id, nat>) {
    && hosts.Keys == (set q | q in n.full :: clean(q))
    && forall h :: h in hosts ==> exists q :: q in n.full && clean(q) == h && hosts[h] == ReportedEpoch(n.full[q])
  }

  /** The state and the outcome after a request from the holder of `certificate`. */
  ghost function Spread(cfg: Config, n: NodeState, certificate: Option<Certificate>,
                        state: State): (NodeState, Outcome) {
    if certificate.None? then (n, NoCertificate)
    else
      var remote := certificate.value.id;
      var (n1, outcome) := EvalCertificate(cfg, n, certificate.value);
      if ShouldBeNeighbour(cfg, n, remote) then
        if outcome != Ok then (n1, outcome) else (EvalNote(cfg, n1, state.ownNote).0, Ok)
      else if remote in n.full then
        (EvalNote(cfg, n, state.ownNote).0, if IsAccused(n.full[remote]) then Ok else NotMyNeighbour)
      else
        if outcome != Ok then (n1, outcome) else (EvalNote(cfg, n1, state.ownNote).0, Ok)
  }

  /** The replies that may accompany the outcome `Ok`. `n` is the state before the request. */
  ghost predicate SpreadReply(cfg: Config, n: NodeState, certificate: Certificate, state: State, reply: Reply) {
    var after := Spread(cfg, n, Some(certificate), state).0;
    if ShouldBeNeighbour(cfg, n, certificate.id) then
      if state.hosts == map[] then reply == EMPTY_REPLY else IsMerge(after, state.hosts, reply)
    else if certificate.id in n.full then
      certificate.id in after.full && IsAccusationReport(after.full[certificate.id], reply)
    else IsIntroduction(cfg, after, certificate.id, reply)
  }

  /** The state, outcome and reply after a request are those promised. */
  ghost predicate Answers(cfg: Config, n: NodeState, certificate: Option<Certificate>, state: State,
                          after: NodeState, outcome: Outcome, reply: Reply)
  {
    match certificate
    case None => after == n && outcome == NoCertificate
    case Some(c) =>
      && (after, outcome) == Spread(cfg, n, certificate, state)
      && (outcome == Ok ==> SpreadReply(cfg, n, c, state, reply))
  }

  // ---------------------------------------------------------------------
  // Monitoring
  // ---------------------------------------------------------------------

  /** The successor was found dead: accuse it, or drop it when it never sent a note. */
  function AccuseSuccessor(n: NodeState, q: Id, r: nat, now: int): NodeState
    requires q in n.full
  {
    var p := n.full[q];
    if p.note.None? then RemoveLive(n, q)
    else
      var (p1, outcome) := CreateAccusation(p, p.note.value, n.Me(), r);
      match outcome
      case Ok =>
        EnsureTimer(n.Put(q, p1).(signed := n.signed + {OwnAccusation(p.note.value, n.Me(), r).signature}),
                    q, n.Me(), now)
      case AccusationAlreadyExists => EnsureTimer(n, q, n.Me(), now)
      case _ => n
  }

  /** One probe of a Monitor round. */
  ghost function MonitorStep(cfg: Config, n: NodeState, dead: bool, now: int): NodeState {
    var n1 := n.(monitorRing := NextRing(n.monitorRing, cfg.numRings));
    match RingSuccessor(cfg, n, n.monitorRing)
    case None => n1
    case Some(q) => if dead && q in n.full then AccuseSuccessor(n1, q, n.monitorRing, now) else n1
  }

  /** One Monitor round, with the verdict of every probe. */
  ghost function MonitorRound(cfg: Config, n: NodeState, verdicts: seq<bool>, now: int): NodeState {
    if verdicts == [] then n
    else MonitorStep(cfg, MonitorRound(cfg, n, verdicts[..|verdicts| - 1], now), verdicts[|verdicts| - 1], now)
  }

  /** How many probes a round makes, given the configured number. */
  function PingsPerInterval(configured: int, numRings: nat): (pings: int)
    ensures configured >= 0 && numRings >= 1 ==> 1 <= pings <= numRings
    ensures 1 <= configured <= numRings ==> pings == configured
  {
    if configured == 0 then 1 else if configured > numRings then numRings else configured
  }

  // ---------------------------------------------------------------------
  // Start-up
  // ---------------------------------------------------------------------

  /** A node that knows only itself. */
  function NewView(cfg: Config, certificate: Certificate): NodeState {
    var own := Fresh(cfg.numRings);
    var note := SelfNote(certificate.id, own.epoch, own.mask);
    NodeState(certificate, note, map[], {}, map[], own.deactivated, 1, 1, {note.signature}, [])
  }

  /** The contact list of the certificate authority is believed alive until shown otherwise. */
  function NewNode(cfg: Config, certificate: Certificate, contacts: seq<Certificate>): NodeState {
    var n := NewView(cfg, certificate);
    if !cfg.hasCa then n
    else
      var n1 := MergeCertificates(cfg, n, contacts);
      n1.(live := n1.full.Keys)
  }

  // ---------------------------------------------------------------------
  // Events and runs of one node
  // ---------------------------------------------------------------------

  datatype Event =
    | OnRequest(certificate: Option<Certificate>, state: State)
    | OnReply(reply: Reply, now: int)
    | DoGossip(hosts: map<Id, nat>)
    | DoMonitor(verdicts: seq<bool>, now: int)
    | DoTimeouts(now: int)

  ghost function Apply(cfg: Config, n: NodeState, e: Event): NodeState
    requires cfg.numRings >= 1
  {
    match e
    case OnRequest(certificate, state) => Spread(cfg, n, certificate, state).0
    case OnReply(reply, now) => MergeReply(cfg, n, reply, now)
    case DoGossip(hosts) => SendToPartners(cfg, n, hosts)
    case DoMonitor(verdicts, now) => MonitorRound(cfg, n, verdicts, now)
    case DoTimeouts(now) => CheckTimeouts(cfg, n, now)
  }

  ghost function Run(cfg: Config, n: NodeState, events: seq<Event>): NodeState
    requires cfg.numRings >= 1
  {
    if events == [] then n else Apply(cfg, Run(cfg, n, events[..|events| - 1]), events[|events| - 1])
  }

  // ---------------------------------------------------------------------
  // A gossip round
  // ---------------------------------------------------------------------

  /** Merges the replies of the partners that could be reached, one after the other. */
  ghost function MergeReplies(cfg: Config, n: NodeState, partners: seq<Id>, replies: map<Id, Reply>,
                              now: int): NodeState
    requires cfg.numRings >= 1
  {
    if partners == [] then n
    else
      var before := MergeReplies(cfg, n, partners[..|partners| - 1], replies, now);
      var last := partners[|partners| - 1];
      if last in replies then MergeReply(cfg, before, replies[last], now) else before
  }

  ghost function GossipEvents(hosts: map<Id, nat>, partners: seq<Id>, replies: map<Id, Reply>,
                              now: int): (es: seq<Event>) {
    if partners == [] then [DoGossip(hosts)]
    else
      var before := GossipEvents(hosts, partners[..|partners| - 1], replies, now);
      var last := partners[|partners| - 1];
      if last in replies then before + [OnReply(replies[last], now)] else before
  }

  /** A gossip round is a run of the node, so whatever holds of every run holds of it. */
  lemma {:induction false} GossipIsRun(cfg: Config, n: NodeState, hosts: map<Id, nat>, partners: seq<Id>,
                                       replies: map<Id, Reply>, now: int)
    requires cfg.numRings >= 1
    ensures MergeReplies(cfg, SendToPartners(cfg, n, hosts), partners, replies, now) ==
      Run(cfg, n, GossipEvents(hosts, partners, replies, now))
  {
    var events := GossipEvents(hosts, partners, replies, now);
    if partners == [] {
      assert Run(cfg, n, events[..0]) == n;
    } else {
      GossipIsRun(cfg, n, hosts, partners[..|partners| - 1], replies, now);
      if partners[|partners| - 1] in replies {
        assert events[..|events| - 1] == GossipEvents(hosts, partners[..|partners| - 1], replies, now);
      }
    }
  }
}
