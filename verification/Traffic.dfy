/** What exactly goes out: the requests of a node, and what its replies hold. */
module Traffic {
  import opened Types
  import opened OwnNote
  import opened PeerSpec
  import opened NodeSpec
  import opened Protocol
  import opened Invariant
  import opened Steps
  import opened Network
  import opened Admission
  import GossipExchange
  import RingOrder
  import Verdicts

  // ---------------------------------------------------------------------
  // Requests
  // ---------------------------------------------------------------------

  /** `t` is another live peer next to the node on its current gossip ring. */
  ghost predicate IsPartner(cfg: Config, n: NodeState, t: Id) {
    && t in n.live && t != n.Me() && 1 <= n.gossipRing <= cfg.numRings
    && (NothingBetween(cfg, n, n.gossipRing, n.Me(), t) || NothingBetween(cfg, n, n.gossipRing, t, n.Me()))
  }

  /** Exactly one request goes to each partner, none to anybody else. It carries the node's certificate, its current
      note and the given report of hosts. Nothing but the gossip ring changes, which moves on by one. */
  lemma RequestsExactly(cfg: Config, n: NodeState, hosts: map<Id, nat>, packet: Packet)
    requires IsRing(n.gossipRing, cfg.numRings)
    ensures var n' := SendToPartners(cfg, n, hosts);
      && (packet in Outgoing(n, n') <==>
           && packet.RequestPacket? && packet.certificate == Some(n.certificate)
           && packet.state == State(hosts, n.note.ToMsg()) && IsPartner(cfg, n, packet.to))
      && n' == n.(sent := n'.sent, gossipRing := if n.gossipRing == cfg.numRings then 1 else n.gossipRing + 1)
  {
    NextRingInRange(n.gossipRing, cfg.numRings);
    var n' := SendToPartners(cfg, n, hosts);
    var i := |n.sent|;
    assert n'.sent[i] == Request(RingNeighbours(cfg, n, n.gossipRing), State(hosts, n.note.ToMsg()));
    assert forall t :: t in RingNeighbours(cfg, n, n.gossipRing) <==> IsPartner(cfg, n, t);
    if packet.RequestPacket? && packet.certificate == Some(n.certificate)
       && packet.state == State(hosts, n.note.ToMsg()) && IsPartner(cfg, n, packet.to) {
      assert packet.to in n'.sent[i].to;
    }
  }

  /** Answering an accusation sends the new note, without a report of hosts, to exactly the partners on the current
      gossip ring. */
  lemma RebuttalExactly(cfg: Config, n: NodeState, m: AccusationMsg, packet: Packet)
    requires GoodConfig(cfg) && NodeInv(cfg, n) && m.signature.Some? && EvalSelfAccusation(cfg, n, m).1 == Ok
    ensures var n' := EvalSelfAccusation(cfg, n, m).0;
      && n'.note.epoch == n.note.epoch + 1
      && (packet in Outgoing(n, n') <==>
           && packet.RequestPacket? && packet.certificate == Some(n.certificate)
           && packet.state == State(map[], n'.note.ToMsg()) && IsPartner(cfg, n, packet.to))
  {
    var own := Answer(OwnOf(n), m.epoch, m.ringNum, cfg.numRings).value;
    var n1 := Publish(n, own);
    RequestsExactly(cfg, n1, map[], packet);
    assert IsPartner(cfg, n1, packet.to) <==> IsPartner(cfg, n, packet.to);
  }

  /** The event is the arrival of a reply from one of the partners. */
  ghost predicate IsReplyOf(e: Event, partners: seq<Id>, replies: map<Id, Reply>, now: int) {
    exists i :: 0 <= i < |partners| && partners[i] in replies && e == OnReply(replies[partners[i]], now)
  }

  /** A gossip round starts with the request and then merges the replies of exactly the partners that could be
      reached. */
  lemma {:induction false} RoundMergesEveryReply(hosts: map<Id, nat>, partners: seq<Id>, replies: map<Id, Reply>,
                                                 now: int, e: Event)
    ensures var events := GossipEvents(hosts, partners, replies, now);
      && |events| >= 1 && events[0] == DoGossip(hosts)
      && (e in events[1..] <==> IsReplyOf(e, partners, replies, now))
  {
    if partners != [] {
      var k := |partners| - 1;
      var rest := partners[..k];
      RoundMergesEveryReply(hosts, rest, replies, now, e);
      assert forall i :: 0 <= i < |rest| ==> rest[i] == partners[i];
      var events, before := GossipEvents(hosts, partners, replies, now), GossipEvents(hosts, rest, replies, now);
      if partners[k] in replies {
        assert events[1..] == before[1..] + [OnReply(replies[partners[k]], now)];
      }
      if IsReplyOf(e, partners, replies, now) {
        var i :| 0 <= i < |partners| && partners[i] in replies && e == OnReply(replies[partners[i]], now);
        assert i < k ==> rest[i] in replies && e == OnReply(replies[rest[i]], now);
      }
    }
  }

  /** As long as anybody is live there is a partner, on every ring. */
  lemma SomebodyIsPartner(cfg: Config, n: NodeState) returns (t: Id)
    requires GoodConfig(cfg) && IsRing(n.gossipRing, cfg.numRings) && n.live != {} && n.Me() !in n.live
    ensures IsPartner(cfg, n, t)
  {
    var x :| x in n.live;
    assert {x, n.Me()} <= n.Members();
    assert |n.Members()| >= |{x, n.Me()}| by {
      assert n.Members() == (n.Members() - {x, n.Me()}) + {x, n.Me()};
    }
    t := RingOrder.UniqueTarget(cfg.hash, n.gossipRing, n.Members(), n.Me());
  }

  /** Where no two known ids come to share a name, a report gives every known host, and nobody else, at exactly the
      epoch of its note, and at 0 where there is none. */
  lemma ReportExactly(n: NodeState, clean: Id -> Id, hosts: map<Id, nat>, q: Id)
    requires IsReport(n, clean, hosts) && q in n.full
    requires forall x :: x in n.full && x != q ==> clean(x) != clean(q)
    ensures clean(q) in hosts
    ensures hosts[clean(q)] == match n.full[q].note case None => 0 case Some(note) => note.epoch
    ensures forall h :: h in hosts ==> exists x :: x in n.full && clean(x) == h
  {
  }

  // ---------------------------------------------------------------------
  // Replies
  // ---------------------------------------------------------------------

  /** A merge holds the certificates of exactly the hosts that were not reported, */
  lemma MergedCertificates(cfg: Config, n: NodeState, given: map<Id, nat>, reply: Reply)
    requires NodeInv(cfg, n) && IsMerge(n, given, reply)
    ensures forall q :: q in n.full ==> (n.full[q].certificate in reply.certificates <==> q !in given)
    ensures forall c :: c in reply.certificates ==> c.id in n.full && c == n.full[c.id].certificate
  {
    assert forall c :: c in reply.certificates <==> c in ToSet(reply.certificates);
    forall q | q in n.full ensures n.full[q].certificate.id == q {
      assert EntryAt(cfg, n, q);
    }
  }

  /** the notes of exactly the hosts that were not reported or reported at a later epoch, its own included, */
  lemma MergedNotes(cfg: Config, n: NodeState, given: map<Id, nat>, reply: Reply)
    requires NodeInv(cfg, n) && IsMerge(n, given, reply)
    ensures forall q :: q in n.full && n.full[q].note.Some? ==>
      (n.full[q].note.value.ToMsg() in reply.notes <==> q !in given || n.full[q].note.value.epoch < given[q])
    ensures n.note.ToMsg() in reply.notes <==> n.Me() !in given || n.note.epoch < given[n.Me()]
    ensures forall m :: m in reply.notes ==>
      m == n.note.ToMsg() || (m.id in n.full && n.full[m.id].note.Some? && m == n.full[m.id].note.value.ToMsg())
  {
    assert forall m :: m in reply.notes <==> m in ToSet(reply.notes);
    forall q | q in n.full && n.full[q].note.Some? ensures n.full[q].note.value.id == q {
      assert EntryAt(cfg, n, q);
    }
  }

  /** and exactly the accusations on record. */
  lemma MergedAccusations(n: NodeState, given: map<Id, nat>, reply: Reply)
    requires IsMerge(n, given, reply)
    ensures forall q, r :: q in n.full && r in n.full[q].accusations && n.full[q].accusations[r].Some? ==>
      n.full[q].accusations[r].value.ToMsg() in reply.accusations
    ensures forall m :: m in reply.accusations ==>
      exists q, r :: q in n.full && r in n.full[q].accusations && n.full[q].accusations[r].Some?
        && m == n.full[q].accusations[r].value.ToMsg()
  {
    assert forall m :: m in reply.accusations <==> m in ToSet(reply.accusations);
    forall q, r | q in n.full && r in n.full[q].accusations && n.full[q].accusations[r].Some?
      ensures n.full[q].accusations[r].value.ToMsg() in reply.accusations
    {
      assert n.full[q].accusations[r].value in Accusations(n.full[q]);
    }
  }

  /** Which kind of reply a request gets: a known requester that is not adjacent gets its accusations, an adjacent one a
      merge or, when it reports no host, nothing, and a newcomer that is not adjacent an introduction. */
  lemma ReplyKind(cfg: Config, n: NodeState, c: Certificate, state: State, reply: Reply)
    requires GoodConfig(cfg) && NodeInv(cfg, n)
    requires Spread(cfg, n, Some(c), state).1 == Ok && SpreadReply(cfg, n, c, state, reply)
    ensures var n' := Spread(cfg, n, Some(c), state).0;
      if Adjacent(cfg, n, n.Me(), c.id)
      then if state.hosts == map[] then reply == EMPTY_REPLY else IsMerge(n', state.hosts, reply)
      else if c.id in n.full then c.id in n'.full && IsAccusationReport(n'.full[c.id], reply)
      else IsIntroduction(cfg, n', c.id, reply)
  {
    SpreadExactly(cfg, n, Some(c), state);
    AdjacentIs(cfg, n, n.Me(), c.id);
  }

  /** A report of accusations holds exactly those on record. */
  lemma ReportedAccusations(p: PeerState, reply: Reply, m: AccusationMsg)
    requires IsAccusationReport(p, reply)
    ensures m in reply.accusations <==>
      exists r :: r in p.accusations && p.accusations[r].Some? && m == p.accusations[r].value.ToMsg()
    ensures reply.certificates == [] && reply.notes == []
  {
    assert m in reply.accusations <==> m in ToSet(reply.accusations);
    if r :| r in p.accusations && p.accusations[r].Some? && m == p.accusations[r].value.ToMsg() {
      assert p.accusations[r].value in Accusations(p);
    }
  }

  /** An accused peer that was expelled learns what it is accused of and answers: if any accusation that the other node
      keeps of it calls for an answer by its own lights, then having asked takes it to a later epoch. */
  lemma AccusedLearnsAndAnswers(cfg: Config, n: NodeState, a: NodeState, reply: Reply, r: nat, now: int)
    requires GoodConfig(cfg) && NodeInv(cfg, a) && a.Me() in n.full && IsAccusationReport(n.full[a.Me()], reply)
    requires r in n.full[a.Me()].accusations && n.full[a.Me()].accusations[r].Some?
    requires Verdicts.CallsForAnswer(cfg, a, n.full[a.Me()].accusations[r].value.ToMsg())
    ensures a.note.epoch < MergeReply(cfg, a, reply, now).note.epoch
  {
    var slot := n.full[a.Me()].accusations[r].value;
    assert slot in Accusations(n.full[a.Me()]);
    assert slot.ToMsg() in ToSet(reply.accusations);
    var i :| 0 <= i < |reply.accusations| && reply.accusations[i] == slot.ToMsg();
    Verdicts.AccusationsAreAnswered(cfg, a, reply.accusations, now, i);
  }

  // ---------------------------------------------------------------------
  // Introductions
  // ---------------------------------------------------------------------

  /** The parties a newcomer is introduced to: the node, and every live peer adjacent to the newcomer on some ring. */
  ghost predicate IsIntroduced(cfg: Config, n: NodeState, remote: Id, q: Id) {
    q == n.Me() || (q in n.live && Adjacent(cfg, n, remote, q))
  }

  /** An introduction holds exactly their certificates, and exactly their notes where they have one. */
  lemma IntroducedExactly(cfg: Config, n: NodeState, remote: Id, reply: Reply, q: Id)
    requires NodeInv(cfg, n) && IsIntroduction(cfg, n, remote, reply) && (q == n.Me() || q in n.full)
    ensures CertificateOf(n, q) in reply.certificates <==> IsIntroduced(cfg, n, remote, q)
    ensures NoteOf(n, q).Some? ==> (NoteOf(n, q).value.ToMsg() in reply.notes <==> IsIntroduced(cfg, n, remote, q))
  {
    assert forall c :: c in reply.certificates <==> c in ToSet(reply.certificates);
    assert forall m :: m in reply.notes <==> m in ToSet(reply.notes);
    OwnNoteOk(cfg, n);
    forall x | x in n.full
      ensures n.full[x].certificate.id == x && (n.full[x].note.Some? ==> n.full[x].note.value.id == x)
    {
      assert EntryAt(cfg, n, x);
    }
    AdjacentIs(cfg, n, remote, q);
  }

  /** A newcomer that merges an introduction knows all these parties, at an epoch at least as late as the node's. */
  lemma IntroductionTeaches(cfg: Config, n: NodeState, remote: Id, reply: Reply, me: NodeState, q: Id, now: int)
    requires GoodConfig(cfg) && NodeInv(cfg, n) && NodeInv(cfg, me) && IsIntroduction(cfg, n, remote, reply)
    requires IsIntroduced(cfg, n, remote, q) && q != me.Me()
    requires VouchedFor(cfg, n.certificate) && Addressable(n.certificate)
    ensures var me' := MergeReply(cfg, me, reply, now);
      q in me'.full && (NoteOf(n, q).Some? ==> NoteOf(n, q).value.epoch <= Epoch(me'.full[q]))
  {
    IntroducedExactly(cfg, n, remote, reply, q);
    AdjacentIs(cfg, n, remote, q);
    if q in n.full {
      assert EntryAt(cfg, n, q);
    }
    var i :| 0 <= i < |reply.certificates| && reply.certificates[i] == CertificateOf(n, q);
    GossipExchange.CertificateIsMerged(cfg, me, reply.certificates, i);
    var me1 := MergeCertificates(cfg, me, reply.certificates);
    MergeCertificatesKeeps(cfg, me, reply.certificates);
    var me2 := MergeNotes(cfg, me1, reply.notes);
    MergeNotesKeeps(cfg, me1, reply.notes);
    assert PeerEvolves(me1, me2, q);
    if NoteOf(n, q).Some? {
      OwnNoteOk(cfg, n);
      assert NoteOf(n, q).value.ToMsg() in ToSet(reply.notes);
      GossipExchange.NoteIsLearned(cfg, me1, reply.notes, q, NoteOf(n, q).value);
    }
    MergeAccusationsKeeps(cfg, me2, reply.accusations, now);
    assert PeerEvolves(me2, MergeReply(cfg, me, reply, now), q);
  }

  lemma OwnNoteOk(cfg: Config, n: NodeState)
    requires NodeInv(cfg, n)
    ensures NoteOk(cfg, n.Me(), n.note)
  {
    assert n.note.signature.statement == NoteStatement(n.Me(), n.note.epoch, n.note.mask);
  }
}
