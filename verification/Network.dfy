/** A network of correct nodes, with packets in flight and an adversary that can send anything except forged
    signatures. */
module Network {
  import opened Types
  import opened PeerSpec
  import opened NodeSpec
  import opened Protocol
  import opened Invariant
  import opened Steps
  import opened Provenance

  datatype Packet =
    | RequestPacket(to: Id, certificate: Option<Certificate>, state: State)
    | ReplyPacket(to: Id, reply: Reply)

  /** The correct nodes and everything in flight. Packets stay: they may be lost, delayed or delivered again. */
  datatype Net = Net(nodes: map<Id, NodeState>, packets: set<Packet>)

  datatype NetEvent =
    | DeliverRequest(packet: Packet, reply: Reply)
    | DeliverReply(packet: Packet, now: int)
    | Internal(at: Id, event: Event)
    | Inject(packet: Packet)

  /** The signatures that can exist: those of a correct node are the ones it has made. */
  ghost function Known(net: Net): iset<Signature> {
    iset s: Signature | s.signer in net.nodes ==> s in net.nodes[s.signer].signed
  }

  ghost predicate PacketWithin(p: Packet, known: iset<Signature>) {
    match p
    case RequestPacket(_, _, state) => Within(state.ownNote.signature, known)
    case ReplyPacket(_, reply) => ReplyWithin(reply, known)
  }

  /** The requests a node issued in a step, one packet per addressee. */
  ghost function Outgoing(n: NodeState, n': NodeState): set<Packet> {
    set i, t | |n.sent| <= i < |n'.sent| && t in n'.sent[i].to ::
      RequestPacket(t, Some(n'.certificate), n'.sent[i].state)
  }

  ghost predicate Enabled(cfg: Config, net: Net, e: NetEvent) {
    match e
    case DeliverRequest(packet, reply) =>
      && packet in net.packets && packet.RequestPacket? && packet.to in net.nodes
      && (packet.certificate.Some? && Spread(cfg, net.nodes[packet.to], packet.certificate, packet.state).1 == Ok ==>
           SpreadReply(cfg, net.nodes[packet.to], packet.certificate.value, packet.state, reply))
    case DeliverReply(packet, _) => packet in net.packets && packet.ReplyPacket? && packet.to in net.nodes
    case Internal(at, event) => at in net.nodes && !event.OnRequest? && !event.OnReply?
    case Inject(packet) => PacketWithin(packet, Known(net))
  }

  /** The step of one node within the network. */
  ghost function AtNode(cfg: Config, net: Net, at: Id, e: Event): Net
    requires cfg.numRings >= 1 && at in net.nodes
  {
    var n' := Apply(cfg, net.nodes[at], e);
    Net(net.nodes[at := n'], net.packets + Outgoing(net.nodes[at], n'))
  }

  ghost function Step(cfg: Config, net: Net, e: NetEvent): Net
    requires cfg.numRings >= 1 && Enabled(cfg, net, e)
  {
    match e
    case DeliverRequest(packet, reply) =>
      var net' := AtNode(cfg, net, packet.to, OnRequest(packet.certificate, packet.state));
      if packet.certificate.Some? && Spread(cfg, net.nodes[packet.to], packet.certificate, packet.state).1 == Ok
      then net'.(packets := net'.packets + {ReplyPacket(packet.certificate.value.id, reply)})
      else net'
    case DeliverReply(packet, now) => AtNode(cfg, net, packet.to, OnReply(packet.reply, now))
    case Internal(at, event) => AtNode(cfg, net, at, event)
    case Inject(packet) => net.(packets := net.packets + {packet})
  }

  /** A run: every event is enabled when it happens. */
  ghost predicate IsRun(cfg: Config, net: Net, events: seq<NetEvent>)
    requires cfg.numRings >= 1
    decreases |events|, 0
  {
    events == [] || (
      var rest := events[..|events| - 1];
      IsRun(cfg, net, rest) && Enabled(cfg, After(cfg, net, rest), events[|events| - 1]))
  }

  ghost function After(cfg: Config, net: Net, events: seq<NetEvent>): Net
    requires cfg.numRings >= 1 && IsRun(cfg, net, events)
    decreases |events|, 1
  {
    if events == [] then net
    else Step(cfg, After(cfg, net, events[..|events| - 1]), events[|events| - 1])
  }

  ghost predicate Started(cfg: Config, a: Id, n: NodeState) {
    exists c: Certificate, contacts: seq<Certificate> :: c.id == a && n == NewNode(cfg, c, contacts)
  }

  /** Start-up: every node knows only its contacts and nothing is in flight. */
  ghost predicate Init(cfg: Config, net: Net) {
    net.packets == {} && forall a :: a in net.nodes ==> Started(cfg, a, net.nodes[a])
  }

  // ---------------------------------------------------------------------
  // The network invariant
  // ---------------------------------------------------------------------

  ghost predicate NodeAt(cfg: Config, net: Net, a: Id) {
    a in net.nodes ==>
      net.nodes[a].Me() == a && NodeInv(cfg, net.nodes[a]) && Stored(net.nodes[a], Known(net))
  }

  /** Every node is consistent, and every signature of a correct node, stored or in flight, is one it has made. */
  ghost predicate NetInv(cfg: Config, net: Net) {
    && (forall a :: NodeAt(cfg, net, a))
    && (forall p :: p in net.packets ==> PacketWithin(p, Known(net)))
  }

  /** How a step may change the network. */
  ghost predicate NetEvolves(net: Net, net': Net) {
    net'.nodes.Keys == net.nodes.Keys && forall a :: a in net.nodes ==> Evolves(net.nodes[a], net'.nodes[a])
  }

  lemma KnownGrows(net: Net, net': Net)
    requires NetEvolves(net, net')
    ensures Known(net) <= Known(net')
  {
    forall s | s in Known(net) ensures s in Known(net') {
      if s.signer in net.nodes {
        assert Evolves(net.nodes[s.signer], net'.nodes[s.signer]);
      }
    }
  }

  lemma StoredGrows(n: NodeState, a: iset<Signature>, b: iset<Signature>)
    requires Stored(n, a) && a <= b
    ensures Stored(n, b)
  {
    forall q ensures StoredAt(n, b, q) {
      assert StoredAt(n, a, q);
    }
  }

  lemma PacketGrows(p: Packet, a: iset<Signature>, b: iset<Signature>)
    requires PacketWithin(p, a) && a <= b
    ensures PacketWithin(p, b)
  {
  }

  /** What a node sends in a step carries only signatures it has made. */
  lemma OutgoingWithin(cfg: Config, n: NodeState, n': NodeState, known: iset<Signature>, p: Packet)
    requires NodeInv(cfg, n') && SignedWithin(n', known) && p in Outgoing(n, n')
    ensures PacketWithin(p, known)
  {
  }

  lemma AtNodeKeeps(cfg: Config, net: Net, at: Id, e: Event)
    requires GoodConfig(cfg) && NetInv(cfg, net) && at in net.nodes && EventWithin(e, Known(net))
    ensures NetInv(cfg, AtNode(cfg, net, at, e)) && NetEvolves(net, AtNode(cfg, net, at, e))
  {
    var n, net' := net.nodes[at], AtNode(cfg, net, at, e);
    var n' := net'.nodes[at];
    assert NodeAt(cfg, net, at);
    ApplyKeeps(cfg, n, e);
    forall a | a in net.nodes ensures Evolves(net.nodes[a], net'.nodes[a]) {
      if a != at {
        EvolvesRefl(net.nodes[a]);
      }
    }
    KnownGrows(net, net');
    var known := Known(net');
    assert SignedWithin(n', known);
    StoredGrows(n, Known(net), known);
    EventGrows(e, Known(net), known);
    ApplyStored(cfg, n, known, e);
    forall a ensures NodeAt(cfg, net', a) {
      assert NodeAt(cfg, net, a);
      if a in net.nodes && a != at {
        StoredGrows(net.nodes[a], Known(net), known);
      }
    }
    forall p | p in net'.packets ensures PacketWithin(p, known) {
      if p in net.packets {
        PacketGrows(p, Known(net), known);
      } else {
        OutgoingWithin(cfg, n, n', known, p);
      }
    }
  }

  lemma EvolvesRefl(n: NodeState)
    ensures Evolves(n, n)
  {
  }

  lemma EventGrows(e: Event, a: iset<Signature>, b: iset<Signature>)
    requires EventWithin(e, a) && a <= b
    ensures EventWithin(e, b)
  {
  }

  /** A reply carries only stored signatures and the responder's own. */
  lemma SpreadReplyWithin(cfg: Config, n: NodeState, c: Certificate, state: State, reply: Reply, known: iset<Signature>)
    requires var n' := Spread(cfg, n, Some(c), state).0;
      NodeInv(cfg, n') && Stored(n', known) && SignedWithin(n', known)
    requires Spread(cfg, n, Some(c), state).1 == Ok && SpreadReply(cfg, n, c, state, reply)
    ensures ReplyWithin(reply, known)
  {
    var n' := Spread(cfg, n, Some(c), state).0;
    assert n'.note.signature in known;
    forall i | 0 <= i < |reply.notes| ensures Within(reply.notes[i].signature, known) {
      assert reply.notes[i] in ToSet(reply.notes);
      assert StoredAt(n', known, reply.notes[i].id);
      forall q | q in n'.full ensures PeerWithin(n'.full[q], known) {
        assert StoredAt(n', known, q);
      }
    }
    forall i | 0 <= i < |reply.accusations| ensures Within(reply.accusations[i].signature, known) {
      assert reply.accusations[i] in ToSet(reply.accusations);
      forall q | q in n'.full ensures PeerWithin(n'.full[q], known) {
        assert StoredAt(n', known, q);
      }
    }
  }

  lemma AddPacketKeeps(cfg: Config, net: Net, p: Packet)
    requires NetInv(cfg, net) && PacketWithin(p, Known(net))
    ensures NetInv(cfg, net.(packets := net.packets + {p}))
    ensures NetEvolves(net, net.(packets := net.packets + {p}))
  {
    var net' := net.(packets := net.packets + {p});
    assert Known(net') == Known(net);
    forall a ensures NodeAt(cfg, net', a) {
      assert NodeAt(cfg, net, a);
    }
  }

  lemma StepKeeps(cfg: Config, net: Net, e: NetEvent)
    requires GoodConfig(cfg) && NetInv(cfg, net) && Enabled(cfg, net, e)
    ensures NetInv(cfg, Step(cfg, net, e)) && NetEvolves(net, Step(cfg, net, e))
  {
    match e
    case DeliverRequest(packet, reply) =>
      var event := OnRequest(packet.certificate, packet.state);
      var net1 := AtNode(cfg, net, packet.to, event);
      AtNodeKeeps(cfg, net, packet.to, event);
      var n := net.nodes[packet.to];
      if packet.certificate.Some? && Spread(cfg, n, packet.certificate, packet.state).1 == Ok {
        assert NodeAt(cfg, net1, packet.to);
        assert SignedWithin(net1.nodes[packet.to], Known(net1));
        SpreadReplyWithin(cfg, n, packet.certificate.value, packet.state, reply, Known(net1));
        AddPacketKeeps(cfg, net1, ReplyPacket(packet.certificate.value.id, reply));
      }
    case DeliverReply(packet, now) => AtNodeKeeps(cfg, net, packet.to, OnReply(packet.reply, now));
    case Internal(at, event) => AtNodeKeeps(cfg, net, at, event);
    case Inject(packet) => AddPacketKeeps(cfg, net, packet);
  }

  lemma NewNodeStored(cfg: Config, c: Certificate, contacts: seq<Certificate>, known: iset<Signature>)
    requires GoodConfig(cfg)
    ensures Stored(NewNode(cfg, c, contacts), known) && NewNode(cfg, c, contacts).Me() == c.id
  {
    var n := NewView(cfg, c);
    NewViewOk(cfg, c);
    assert Stored(n, known);
    MergeCertificatesKeeps(cfg, n, contacts);
    MergeCertificatesStored(cfg, n, known, contacts);
    if cfg.hasCa {
      SameFullStored(MergeCertificates(cfg, n, contacts), NewNode(cfg, c, contacts), known);
    }
  }

  lemma InitOk(cfg: Config, net: Net)
    requires GoodConfig(cfg) && Init(cfg, net)
    ensures NetInv(cfg, net)
  {
    forall a ensures NodeAt(cfg, net, a) {
      if a in net.nodes {
        assert Started(cfg, a, net.nodes[a]);
        var c: Certificate, contacts: seq<Certificate> :| c.id == a && net.nodes[a] == NewNode(cfg, c, contacts);
        NewNodeOk(cfg, c, contacts);
        NewNodeStored(cfg, c, contacts, Known(net));
      }
    }
  }

  lemma NetEvolvesTrans(a: Net, b: Net, c: Net)
    requires NetEvolves(a, b) && NetEvolves(b, c)
    ensures NetEvolves(a, c)
  {
    forall x | x in a.nodes ensures Evolves(a.nodes[x], c.nodes[x]) {
      EvolvesTrans(a.nodes[x], b.nodes[x], c.nodes[x]);
    }
  }

  /** The invariant holds along every run, and what the nodes know only grows. */
  lemma {:induction false} RunsKeep(cfg: Config, net: Net, events: seq<NetEvent>)
    requires GoodConfig(cfg) && NetInv(cfg, net) && IsRun(cfg, net, events)
    ensures NetInv(cfg, After(cfg, net, events)) && NetEvolves(net, After(cfg, net, events))
  {
    if events == [] {
      forall a | a in net.nodes ensures Evolves(net.nodes[a], net.nodes[a]) {
        EvolvesRefl(net.nodes[a]);
      }
    } else {
      var rest := events[..|events| - 1];
      RunsKeep(cfg, net, rest);
      StepKeeps(cfg, After(cfg, net, rest), events[|events| - 1]);
      NetEvolvesTrans(net, After(cfg, net, rest), After(cfg, net, events));
    }
  }

  // ---------------------------------------------------------------------
  // What the correct nodes believe about each other
  // ---------------------------------------------------------------------

  /** What `b` stores about the correct node `a` was signed by `a` and is not ahead of it. */
  ghost predicate Truthful(a: NodeState, p: PeerState) {
    && (p.note.Some? ==>
         && p.note.value.signature in a.signed && p.note.value.Signed() && p.note.value.id == a.Me()
         && p.note.value.epoch <= a.note.epoch)
    && (forall r :: r in p.accusations && p.accusations[r].Some? ==> p.accusations[r].value.epoch <= a.note.epoch)
  }

  lemma InvTruthful(cfg: Config, net: Net, a: Id, b: Id)
    requires NetInv(cfg, net) && a in net.nodes && b in net.nodes && a in net.nodes[b].full
    ensures Truthful(net.nodes[a], net.nodes[b].full[a])
  {
    var n := net.nodes[b];
    assert NodeAt(cfg, net, a) && NodeAt(cfg, net, b);
    assert EntryAt(cfg, n, a) && StoredAt(n, Known(net), a);
    var p := n.full[a];
    if p.note.Some? {
      assert p.note.value.signature in Known(net);
    }
    forall r | r in p.accusations && p.accusations[r].Some?
      ensures p.accusations[r].value.epoch <= net.nodes[a].note.epoch
    {
      assert SlotOk(a, p.note, r, p.accusations[r]);
    }
  }

  /** The states of the network that some run from start-up leads to. */
  ghost predicate Reachable(cfg: Config, net: Net)
    requires cfg.numRings >= 1
  {
    exists start, events :: Init(cfg, start) && IsRun(cfg, start, events) && net == After(cfg, start, events)
  }

  lemma ReachableOk(cfg: Config, net: Net)
    requires GoodConfig(cfg) && Reachable(cfg, net)
    ensures NetInv(cfg, net)
  {
    var start, events :| Init(cfg, start) && IsRun(cfg, start, events) && net == After(cfg, start, events);
    InitOk(cfg, start);
    RunsKeep(cfg, start, events);
  }

  /** In every run, every note and accusation any correct node stores about a correct node A carries an epoch no
      greater than A's own, and every such note was signed by A. */
  lemma EpochsAreTruthful(cfg: Config, net: Net, a: Id, b: Id)
    requires GoodConfig(cfg) && Reachable(cfg, net)
    requires a in net.nodes && b in net.nodes && a in net.nodes[b].full
    ensures Truthful(net.nodes[a], net.nodes[b].full[a])
  {
    ReachableOk(cfg, net);
    InvTruthful(cfg, net, a, b);
  }

  /** From any reachable state on, along every continuation, no correct node forgets a peer and no stored epoch
      falls. */
  lemma EpochsNeverFall(cfg: Config, net: Net, more: seq<NetEvent>, later: Net, a: Id, b: Id)
    requires GoodConfig(cfg) && Reachable(cfg, net) && IsRun(cfg, net, more) && later == After(cfg, net, more)
    requires b in net.nodes && a in net.nodes[b].full
    ensures b in later.nodes && a in later.nodes[b].full
    ensures Epoch(net.nodes[b].full[a]) <= Epoch(later.nodes[b].full[a])
  {
    ReachableOk(cfg, net);
    RunsKeep(cfg, net, more);
    assert Evolves(net.nodes[b], later.nodes[b]);
    assert PeerEvolves(net.nodes[b], later.nodes[b], a);
  }

  /** Two correct nodes that store the same epoch for a correct node store the same note: a correct node never signs
      two notes for one epoch. */
  lemma NotesAgree(cfg: Config, net: Net, a: Id, b: Id, c: Id)
    requires GoodConfig(cfg) && Reachable(cfg, net)
    requires a in net.nodes && b in net.nodes && c in net.nodes && a in net.nodes[b].full && a in net.nodes[c].full
    requires Epoch(net.nodes[b].full[a]) == Epoch(net.nodes[c].full[a])
    ensures net.nodes[b].full[a].note == net.nodes[c].full[a].note
  {
    ReachableOk(cfg, net);
    InvTruthful(cfg, net, a, b);
    InvTruthful(cfg, net, a, c);
    assert NodeAt(cfg, net, a);
  }
}
