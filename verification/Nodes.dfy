/** A node that handles what arrives from the network by updating its view in place. */
module Nodes {
  import opened Types
  import opened Mask
  import opened PeerSpec
  import opened Peers
  import opened Views
  import NodeSpec
  import Invariant
  import Protocol
  import Replies
  import Steps

  /** The state and the outcome after a requester's certificate and note were taken in. */
  ghost function Admitted(cfg: Config, n: NodeState, c: Certificate, note: NoteMsg): (NodeState, Outcome) {
    var (n1, outcome) := NodeSpec.EvalCertificate(cfg, n, c);
    if outcome != Ok then (n1, outcome) else (NodeSpec.EvalNote(cfg, n1, note).0, Ok)
  }

  /** The answer to a requester next to this node. */
  lemma NeighbourAnswer(cfg: Config, n: NodeState, c: Certificate, state: State, after: NodeState,
                        outcome: Outcome, reply: Reply)
    requires NodeSpec.ShouldBeNeighbour(cfg, n, c.id) && (after, outcome) == Admitted(cfg, n, c, state.ownNote)
    requires outcome == Ok ==>
      if state.hosts == map[] then reply == EMPTY_REPLY else Protocol.IsMerge(after, state.hosts, reply)
    ensures Protocol.Answers(cfg, n, Some(c), state, after, outcome, reply)
  {
  }

  /** The answer to an unknown requester that is no neighbour. */
  lemma NewcomerAnswer(cfg: Config, n: NodeState, c: Certificate, state: State, after: NodeState,
                       outcome: Outcome, reply: Reply)
    requires !NodeSpec.ShouldBeNeighbour(cfg, n, c.id) && c.id !in n.full
    requires (after, outcome) == Admitted(cfg, n, c, state.ownNote)
    requires outcome == Ok ==> Protocol.IsIntroduction(cfg, after, c.id, reply)
    ensures Protocol.Answers(cfg, n, Some(c), state, after, outcome, reply)
  {
  }

  /** The answer to a known requester that is no neighbour. */
  lemma ObservedAnswer(cfg: Config, n: NodeState, c: Certificate, state: State, after: NodeState, reply: Reply)
    requires !NodeSpec.ShouldBeNeighbour(cfg, n, c.id) && c.id in n.full
    requires after == NodeSpec.EvalNote(cfg, n, state.ownNote).0
    requires IsAccused(n.full[c.id]) ==> c.id in after.full && Protocol.IsAccusationReport(after.full[c.id], reply)
    ensures Protocol.Answers(cfg, n, Some(c), state, after,
                             if IsAccused(n.full[c.id]) then Ok else NotMyNeighbour, reply)
  {
  }

  class Node {
    const view: View

    constructor (view: View)
      ensures this.view == view
    {
      this.view := view;
    }

    // -------------------------------------------------------------------
    // Updating one record
    // -------------------------------------------------------------------

    method StoreNote(id: Id, mask: nat, epoch: nat, signature: Signature)
      requires view.Valid() && id in view.viewMap
      modifies view.viewMap[id]
      ensures view.Valid() && view.viewMap[id].note.Some?
      ensures view.Abs() == old(view.Abs()).Put(id, AddNote(old(view.viewMap[id].State()), mask, epoch, signature))
    {
      view.viewMap[id].SetNote(mask, epoch, signature);
      assert view.Full() == old(view.Full())[id := view.viewMap[id].State()];
    }

    // -------------------------------------------------------------------
    // Certificates
    // -------------------------------------------------------------------

    method EvalCertificate(c: Certificate) returns (outcome: Outcome)
      requires view.Valid()
      modifies view`viewMap
      ensures view.Valid() && (view.Abs(), outcome) == NodeSpec.EvalCertificate(view.cfg, old(view.Abs()), c)
      ensures fresh(view.viewMap.Values - old(view.viewMap.Values))
    {
      if view.Me() == c.id {
        return SelfCertificate;
      }
      if |c.id.bytes| != ID_SIZE {
        return InvalidId;
      }
      if view.cfg.hasCa {
        if !c.caSigned {
          return BadCertificate;
        }
      } else if !c.selfSigned {
        return BadCertificate;
      }
      if c.id !in view.viewMap {
        var _ := view.AddFull(c);
      }
      outcome := Ok;
    }

    method MergeCertificates(cs: seq<Certificate>)
      requires view.Valid()
      modifies view`viewMap
      ensures view.Valid() && view.Abs() == NodeSpec.MergeCertificates(view.cfg, old(view.Abs()), cs)
      ensures fresh(view.viewMap.Values - old(view.viewMap.Values))
    {
      var i := 0;
      while i < |cs|
        invariant 0 <= i <= |cs| && view.Valid()
        invariant view.Abs() == NodeSpec.MergeCertificates(view.cfg, old(view.Abs()), cs[..i])
        invariant fresh(view.viewMap.Values - old(view.viewMap.Values))
      {
        assert cs[..i + 1][..i] == cs[..i];
        if view.Me() != cs[i].id {
          var _ := EvalCertificate(cs[i]);
        }
        i := i + 1;
      }
      assert cs[..i] == cs;
    }

    /** Everybody known becomes live, one after the other in any order. */
    method AddAllLive()
      requires view.Valid() && Steps.Unaccused(view.Abs())
      modifies view`liveMap, view.rings.ringMap.Values, view.viewMap.Values
      ensures view.Valid() && view.Abs() == old(view.Abs()).(live := old(view.viewMap).Keys)
    {
      ghost var n := view.Abs();
      var todo := view.viewMap.Keys;
      ghost var live := n.live;
      while todo != {}
        invariant todo <= view.viewMap.Keys && view.Valid()
        invariant live + todo == view.viewMap.Keys && view.Abs() == n.(live := live)
        decreases todo
      {
        var q :| q in todo;
        Steps.JoinUnaccused(view.cfg, view.Abs(), q);
        view.AddLive(view.viewMap[q]);
        todo := todo - {q};
        live := live + {q};
      }
      assert live == view.viewMap.Keys;
    }

    method AddContacts(contacts: seq<Certificate>)
      requires view.Valid() && Steps.Unaccused(view.Abs())
      modifies view`viewMap, view`liveMap, view.rings.ringMap.Values, view.viewMap.Values
      ensures view.Valid()
      ensures
        var n := NodeSpec.MergeCertificates(view.cfg, old(view.Abs()), contacts);
        view.Abs() == n.(live := n.full.Keys)
      ensures fresh(view.viewMap.Values - old(view.viewMap.Values))
    {
      Steps.MergeCertificatesBare(view.cfg, view.Abs(), contacts);
      MergeCertificates(contacts);
      AddAllLive();
    }

    // -------------------------------------------------------------------
    // Notes
    // -------------------------------------------------------------------

    /** A newer note of a peer that nobody accuses. */
    method Refresh(m: NoteMsg, signature: Signature)
      requires view.Valid() && m.id in view.viewMap
      modifies view`liveMap, view.rings.ringMap.Values, view.viewMap.Values
      ensures view.Valid()
      ensures view.Abs() == NodeSpec.AddLive(view.cfg,
        old(view.Abs()).Put(m.id, AddNote(old(view.Full())[m.id], m.mask, m.epoch, signature)), m.id)
    {
      StoreNote(m.id, m.mask, m.epoch, signature);
      if m.id !in view.liveMap {
        view.AddLive(view.viewMap[m.id]);
      }
    }

    /** Drops the accusations older than a new note, then stores the note. */
    method Renew(m: NoteMsg, signature: Signature)
      requires view.Valid() && m.id in view.viewMap
      modifies view.viewMap[m.id]
      ensures view.Valid() && view.Abs() == old(view.Abs()).Put(m.id,
        AddNote(Invalidate(old(view.Full())[m.id], m.epoch), m.mask, m.epoch, signature))
    {
      var p := view.viewMap[m.id];
      p.RemoveOlder(m.epoch);
      p.SetNote(m.mask, m.epoch, signature);
      assert view.Full() == old(view.Full())[m.id := p.State()];
    }

    method IsPeerAccused(id: Id) returns (yes: bool)
      requires view.Valid() && id in view.viewMap
      ensures view.Valid() && (yes <==> IsAccused(view.Abs().full[id]))
    {
      yes := view.viewMap[id].Accused();
    }

    /** A peer that is no longer accused loses its timer and is live again. */
    method Reinstate(id: Id)
      requires view.Valid() && id in view.viewMap
      modifies view`liveMap, view`timeoutMap, view.rings.ringMap.Values, view.viewMap.Values
      ensures view.Valid()
      ensures view.Abs() == NodeSpec.AddLive(view.cfg, old(view.Abs()).(timers := old(view.timeoutMap) - {id}), id)
    {
      view.DeleteTimeout(id);
      if id !in view.liveMap {
        view.AddLive(view.viewMap[id]);
      }
    }

    /** A newer note of an accused peer: it drops the older accusations, and when none is left the peer is cleared. */
    method Clear(m: NoteMsg, signature: Signature)
      requires view.Valid() && m.id in view.viewMap
      modifies view`liveMap, view`timeoutMap, view.rings.ringMap.Values, view.viewMap.Values
      ensures view.Valid()
      ensures
        var p := AddNote(Invalidate(old(view.Full())[m.id], m.epoch), m.mask, m.epoch, signature);
        var n := old(view.Abs()).Put(m.id, p);
        view.Abs() == if IsAccused(p) then n else NodeSpec.AddLive(view.cfg, n.(timers := n.timers - {m.id}), m.id)
    {
      Renew(m, signature);
      ghost var n := view.Abs();
      var accused := IsPeerAccused(m.id);
      assert view.Abs() == n;
      if !accused {
        Reinstate(m.id);
      }
    }

    method EvalNote(m: NoteMsg) returns (outcome: Outcome)
      requires view.Valid()
      modifies view`liveMap, view`timeoutMap, view.rings.ringMap.Values, view.viewMap.Values
      ensures view.Valid() && (view.Abs(), outcome) == NodeSpec.EvalNote(view.cfg, old(view.Abs()), m)
    {
      if m.signature.None? {
        return InvalidSignature;
      }
      if m.id !in view.viewMap {
        return NoPeer;
      }
      var p := view.viewMap[m.id];
      var note := p.note;
      if note.Some? && !note.value.IsMoreRecent(m.epoch) {
        return OldNote;
      }
      if !ValidMask(m.mask, view.cfg.numRings) {
        return InvalidMask;
      }
      var statement := NoteStatement(m.id, m.epoch, m.mask);
      var accused := p.Accused();
      if !accused {
        if !Verify(statement, m.signature.value, p.certificate.id) {
          return InvalidSignature;
        }
        Refresh(m, m.signature.value);
      } else {
        if !Verify(statement, m.signature.value, p.certificate.id) {
          return InvalidSignature;
        }
        Clear(m, m.signature.value);
      }
      outcome := Ok;
    }

    method MergeNotes(ms: seq<NoteMsg>)
      requires view.Valid()
      modifies view`liveMap, view`timeoutMap, view.rings.ringMap.Values, view.viewMap.Values
      ensures view.Valid() && view.Abs() == NodeSpec.MergeNotes(view.cfg, old(view.Abs()), ms)
    {
      var i := 0;
      while i < |ms|
        invariant 0 <= i <= |ms| && view.Valid()
        invariant view.Abs() == NodeSpec.MergeNotes(view.cfg, old(view.Abs()), ms[..i])
      {
        assert ms[..i + 1][..i] == ms[..i];
        if view.Me() != ms[i].id {
          var _ := EvalNote(ms[i]);
        }
        i := i + 1;
      }
      assert ms[..i] == ms;
    }

    // -------------------------------------------------------------------
    // Sending
    // -------------------------------------------------------------------

    /** Sends the node's note, with a report of the hosts it knows, to the partners on the current gossip ring. */
    method Send(hosts: map<Id, nat>) returns (partners: seq<Id>)
      requires view.Valid()
      modifies view`currGossipRing, view`sent
      ensures view.Valid() && view.Abs() == NodeSpec.SendToPartners(view.cfg, old(view.Abs()), hosts)
      ensures ToSet(partners) == NodeSpec.RingNeighbours(view.cfg, old(view.Abs()), old(view.currGossipRing))
    {
      partners := view.GossipPartners();
      view.sent := view.sent + [NodeSpec.Request(ToSet(partners), State(hosts, view.self.note.value.ToMsg()))];
    }

    // -------------------------------------------------------------------
    // Accusations
    // -------------------------------------------------------------------

    /** An accused live peer gets a timer unless it has one. */
    method EnsureTimer(id: Id, observer: Id, now: int)
      requires view.Valid() && id in view.viewMap
      modifies view`timeoutMap
      ensures view.Valid() && view.Abs() == NodeSpec.EnsureTimer(old(view.Abs()), id, observer, now)
    {
      if id !in view.timeoutMap && id in view.liveMap {
        var _ := view.StartTimer(id, view.viewMap[id].note, observer, now);
      }
    }

    method StoreAccusation(a: Accusation) returns (outcome: Outcome)
      requires view.Valid() && a.accused in view.viewMap
      modifies view.viewMap[a.accused]
      ensures view.Valid()
      ensures outcome == AddAccusation(old(view.viewMap[a.accused].State()), a).1
      ensures view.Abs() == old(view.Abs()).Put(a.accused, AddAccusation(old(view.viewMap[a.accused].State()), a).0)
      ensures outcome != Ok ==> view.Abs() == old(view.Abs())
    {
      outcome := view.viewMap[a.accused].Accuse(a);
      assert view.Full() == old(view.Full())[a.accused := view.viewMap[a.accused].State()];
      assert outcome != Ok ==> view.Full() == old(view.Full());
    }

    /** An accusation of this node: when it holds up, the node answers it and tells its gossip partners. */
    method EvalSelfAccusation(m: AccusationMsg, signature: Signature) returns (outcome: Outcome)
      requires view.Valid() && m.signature == Some(signature)
      modifies view`deactivatedRings, view`signed, view`currGossipRing, view`sent, view.self`note
      ensures view.Valid() && (view.Abs(), outcome) == NodeSpec.EvalSelfAccusation(view.cfg, old(view.Abs()), m)
    {
      var valid := view.ValidAccuser(view.Me(), m.accuser, m.ringNum);
      if !valid {
        return InvalidAccuser;
      }
      if !Verify(AccusationStatement(m.accused, m.accuser, m.ringNum, m.epoch), signature, m.accuser) {
        return InvalidSignature;
      }
      var rebut := view.ShouldRebuttal(m.epoch, m.ringNum);
      if !rebut {
        return InvalidSelfAccusation;
      }
      var _ := Send(map[]);
      outcome := Ok;
    }

    /** An accusation of another peer. */
    method EvalPeerAccusation(m: AccusationMsg, signature: Signature, now: int) returns (outcome: Outcome)
      requires view.Valid() && m.signature == Some(signature) && m.accused in view.viewMap
      modifies view`timeoutMap, view.viewMap[m.accused]
      ensures view.Valid() && (view.Abs(), outcome) == NodeSpec.EvalPeerAccusation(view.cfg, old(view.Abs()), m, now)
    {
      var p := view.viewMap[m.accused];
      var slot := RingAccusation(p.State(), m.ringNum);
      if slot.Some? && slot.value.Equal(m.accused, m.accuser, m.ringNum, m.epoch) {
        EnsureTimer(m.accused, m.accuser, now);
        return AccusationAlreadyExists;
      }
      if p.note.None? || p.note.value.epoch != m.epoch {
        return InvalidEpoch;
      }
      if IsRingDisabled(p.note.value.mask, m.ringNum, view.cfg.numRings) {
        return DisabledRing;
      }
      var valid := view.ValidAccuser(m.accused, m.accuser, m.ringNum);
      if !valid {
        return InvalidAccuser;
      }
      if !Verify(AccusationStatement(m.accused, m.accuser, m.ringNum, m.epoch), signature, m.accuser) {
        return InvalidSignature;
      }
      outcome := StoreAccusation(Accusation(m.accused, m.accuser, m.ringNum, m.epoch, signature));
      if outcome == Ok {
        EnsureTimer(m.accused, m.accuser, now);
      }
    }

    method EvalAccusation(m: AccusationMsg, now: int) returns (outcome: Outcome)
      requires view.Valid() && NodeSpec.KnownParties(view.Abs(), m)
      modifies view, view.viewMap.Values, view.self`note
      ensures view.Valid() && view.viewMap == old(view.viewMap)
      ensures (view.Abs(), outcome) == NodeSpec.EvalAccusation(view.cfg, old(view.Abs()), m, now)
    {
      if m.signature.None? {
        return InvalidSignature;
      }
      if m.accused == view.Me() {
        outcome := EvalSelfAccusation(m, m.signature.value);
      } else {
        outcome := EvalPeerAccusation(m, m.signature.value, now);
      }
    }

    /** Accusations whose parties are not known are skipped. */
    method MergeAccusation(m: AccusationMsg, now: int)
      requires view.Valid()
      modifies view, view.viewMap.Values, view.self`note
      ensures view.Valid() && view.viewMap == old(view.viewMap)
      ensures view.Abs() == NodeSpec.MergeAccusation(view.cfg, old(view.Abs()), m, now)
    {
      if m.accuser != view.Me() && m.accuser !in view.viewMap {
        return;
      }
      if m.accused != view.Me() && (m.accused !in view.viewMap || view.viewMap[m.accused].note.None?) {
        return;
      }
      var _ := EvalAccusation(m, now);
    }

    method MergeAccusations(ms: seq<AccusationMsg>, now: int)
      requires view.Valid()
      modifies view, view.viewMap.Values, view.self`note
      ensures view.Valid() && view.viewMap == old(view.viewMap)
      ensures view.Abs() == NodeSpec.MergeAccusations(view.cfg, old(view.Abs()), ms, now)
    {
      var i := 0;
      while i < |ms|
        invariant 0 <= i <= |ms| && view.Valid() && view.viewMap == old(view.viewMap)
        invariant view.Abs() == NodeSpec.MergeAccusations(view.cfg, old(view.Abs()), ms[..i], now)
      {
        assert ms[..i + 1][..i] == ms[..i];
        MergeAccusation(ms[i], now);
        i := i + 1;
      }
      assert ms[..i] == ms;
    }

    /** Handles the reply to a gossip request. */
    method MergeReply(reply: Reply, now: int)
      requires view.Valid()
      modifies view, view.rings.ringMap.Values, view.viewMap.Values, view.self`note
      ensures view.Valid() && view.Abs() == NodeSpec.MergeReply(view.cfg, old(view.Abs()), reply, now)
      ensures fresh(view.viewMap.Values - old(view.viewMap.Values))
    {
      MergeCertificates(reply.certificates);
      MergeNotes(reply.notes);
      MergeAccusations(reply.accusations, now);
    }

    // -------------------------------------------------------------------
    // Rounds
    // -------------------------------------------------------------------

    method MergeReplyFrom(partner: Id, replies: map<Id, Reply>, now: int)
      requires view.Valid()
      modifies view, view.rings.ringMap.Values, view.viewMap.Values, view.self`note
      ensures view.Valid() && fresh(view.viewMap.Values - old(view.viewMap.Values))
      ensures view.Abs() ==
        if partner in replies then NodeSpec.MergeReply(view.cfg, old(view.Abs()), replies[partner], now)
        else old(view.Abs())
    {
      if partner in replies {
        MergeReply(replies[partner], now);
      }
    }

    method MergeReplies(partners: seq<Id>, replies: map<Id, Reply>, now: int)
      requires view.Valid()
      modifies view, view.rings.ringMap.Values, view.viewMap.Values, view.self`note
      ensures view.Valid() && view.Abs() == Protocol.MergeReplies(view.cfg, old(view.Abs()), partners, replies, now)
    {
      var i := 0;
      while i < |partners|
        invariant 0 <= i <= |partners| && view.Valid()
        invariant fresh(view.viewMap.Values - old(view.viewMap.Values))
        invariant view.Abs() == Protocol.MergeReplies(view.cfg, old(view.Abs()), partners[..i], replies, now)
      {
        assert partners[..i + 1][..i] == partners[..i];
        MergeReplyFrom(partners[i], replies, now);
        i := i + 1;
      }
      assert partners[..i] == partners;
    }

    /** One gossip round: the report of known hosts goes out, with ids made valid UTF-8 by `clean`, and the answers of
        the partners that could be reached come in. */
    method Gossip(clean: Id -> Id, replies: map<Id, Reply>, now: int) returns (hosts: map<Id, nat>, partners: seq<Id>)
      requires view.Valid()
      modifies view, view.rings.ringMap.Values, view.viewMap.Values, view.self`note
      ensures view.Valid() && Protocol.IsReport(old(view.Abs()), clean, hosts)
      ensures ToSet(partners) == NodeSpec.RingNeighbours(view.cfg, old(view.Abs()), old(view.currGossipRing))
      ensures view.Abs() ==
        Protocol.Run(view.cfg, old(view.Abs()), Protocol.GossipEvents(hosts, partners, replies, now))
    {
      ghost var n := view.Abs();
      var state := Replies.Report(view, clean);
      assert view.Abs() == n;
      hosts := state.hosts;
      partners := Send(hosts);
      MergeReplies(partners, replies, now);
      Protocol.GossipIsRun(view.cfg, n, hosts, partners, replies, now);
    }

    /** Signs an accusation of a silent successor and stores it, unless the same one is on record. */
    method StoreOwnAccusation(q: Id, note: Note, ringNum: nat) returns (outcome: Outcome)
      requires view.Valid() && q in view.viewMap
      modifies view.viewMap[q]
      ensures view.Valid() && outcome == CreateAccusation(old(view.Full())[q], note, view.Me(), ringNum).1
      ensures outcome != Ok ==> view.Abs() == old(view.Abs())
      ensures view.Abs() == old(view.Abs()).Put(q, CreateAccusation(old(view.Full())[q], note, view.Me(), ringNum).0)
    {
      outcome := view.viewMap[q].Create(note, view.Me(), ringNum);
      assert view.Full() == old(view.Full())[q := view.viewMap[q].State()];
      assert outcome != Ok ==> view.Full() == old(view.Full());
    }

    ghost method RecordSignature(signature: Signature)
      requires view.Valid()
      modifies view`signed
      ensures view.Valid() && view.Abs() == old(view.Abs()).(signed := old(view.signed) + {signature})
    {
      view.signed := view.signed + {signature};
      assert view.Full() == old(view.Full());
    }

    /** The successor was found dead: it is accused, or dropped when it never sent a note. */
    method AccuseSuccessor(q: Id, ringNum: nat, now: int)
      requires view.Valid() && q in view.viewMap
      modifies view`liveMap, view`timeoutMap, view`signed, view.rings.ringMap.Values, view.viewMap[q]
      ensures view.Valid() && view.Abs() == Protocol.AccuseSuccessor(old(view.Abs()), q, ringNum, now)
    {
      var note := view.viewMap[q].note;
      if note.None? {
        view.RemoveLive(q);
        return;
      }
      var outcome := StoreOwnAccusation(q, note.value, ringNum);
      if outcome == Ok {
        RecordSignature(OwnAccusation(note.value, view.Me(), ringNum).signature);
      }
      if outcome == Ok || outcome == AccusationAlreadyExists {
        EnsureTimer(q, view.Me(), now);
      }
    }

    /** One probe: `dead` is the verdict of the failure detector, should there be anybody to probe. */
    method MonitorStep(dead: bool, now: int)
      requires view.Valid()
      modifies view`currMonitorRing, view`liveMap, view`timeoutMap, view`signed
      modifies view.rings.ringMap.Values, view.viewMap.Values
      ensures view.Valid()
      ensures view.Abs() == Protocol.MonitorStep(view.cfg, old(view.Abs()), dead, now)
    {
      var target, ringNum := view.MonitorTarget();
      if target.Some? && dead {
        AccuseSuccessor(target.value, ringNum, now);
      }
    }

    /** One monitoring round, a probe for every verdict. */
    method Monitor(verdicts: seq<bool>, now: int)
      requires view.Valid()
      modifies view`currMonitorRing, view`liveMap, view`timeoutMap, view`signed
      modifies view.rings.ringMap.Values, view.viewMap.Values
      ensures view.Valid()
      ensures view.Abs() == Protocol.MonitorRound(view.cfg, old(view.Abs()), verdicts, now)
    {
      var i := 0;
      while i < |verdicts|
        invariant 0 <= i <= |verdicts| && view.Valid()
        invariant view.Abs() == Protocol.MonitorRound(view.cfg, old(view.Abs()), verdicts[..i], now)
      {
        assert verdicts[..i + 1][..i] == verdicts[..i];
        MonitorStep(verdicts[i], now);
        i := i + 1;
      }
      assert verdicts[..i] == verdicts;
    }

    // -------------------------------------------------------------------
    // Answering a gossip request
    // -------------------------------------------------------------------

    /** Takes in the certificate and then the note of a requester. */
    method Admit(c: Certificate, note: NoteMsg) returns (outcome: Outcome)
      requires view.Valid()
      modifies view`viewMap, view`liveMap, view`timeoutMap, view.rings.ringMap.Values, view.viewMap.Values
      ensures view.Valid() && (view.Abs(), outcome) == Admitted(view.cfg, old(view.Abs()), c, note)
      ensures fresh(view.viewMap.Values - old(view.viewMap.Values))
    {
      outcome := EvalCertificate(c);
      if outcome == Ok {
        var _ := EvalNote(note);
      }
    }

    /** Takes in a requester and merges the view for it. A request without hosts is only a rebuttal. */
    method AdmitAndMerge(c: Certificate, state: State) returns (outcome: Outcome, reply: Reply)
      requires view.Valid()
      modifies view`viewMap, view`liveMap, view`timeoutMap, view.rings.ringMap.Values, view.viewMap.Values
      ensures view.Valid() && (view.Abs(), outcome) == Admitted(view.cfg, old(view.Abs()), c, state.ownNote)
      ensures fresh(view.viewMap.Values - old(view.viewMap.Values))
      ensures outcome == Ok && state.hosts == map[] ==> reply == EMPTY_REPLY
      ensures outcome == Ok && state.hosts != map[] ==> Protocol.IsMerge(view.Abs(), state.hosts, reply)
    {
      reply := EMPTY_REPLY;
      outcome := Admit(c, state.ownNote);
      ghost var after := view.Abs();
      if outcome == Ok && state.hosts != map[] {
        reply := Replies.MergeViews(view, state.hosts);
        assert view.Abs() == after;
      }
    }

    /** A requester next to this node gets whatever it lacks. */
    method AnswerNeighbour(c: Certificate, state: State) returns (outcome: Outcome, reply: Reply)
      requires view.Valid() && NodeSpec.ShouldBeNeighbour(view.cfg, view.Abs(), c.id)
      modifies view`viewMap, view`liveMap, view`timeoutMap, view.rings.ringMap.Values, view.viewMap.Values
      ensures view.Valid()
      ensures fresh(view.viewMap.Values - old(view.viewMap.Values))
      ensures Protocol.Answers(view.cfg, old(view.Abs()), Some(c), state, view.Abs(), outcome, reply)
    {
      outcome, reply := AdmitAndMerge(c, state);
      NeighbourAnswer(view.cfg, old(view.Abs()), c, state, view.Abs(), outcome, reply);
    }

    /** Takes in the note of a known peer and tells the peer what it is accused of, if it was accused. */
    method NoteAndReport(id: Id, note: NoteMsg) returns (accused: bool, reply: Reply)
      requires view.Valid() && id in view.viewMap
      modifies view`liveMap, view`timeoutMap, view.rings.ringMap.Values, view.viewMap.Values
      ensures view.Valid() && view.Abs() == NodeSpec.EvalNote(view.cfg, old(view.Abs()), note).0
      ensures (accused <==> IsAccused(old(view.Full())[id])) && id in view.viewMap
      ensures accused ==> Protocol.IsAccusationReport(view.Full()[id], reply)
    {
      accused := IsPeerAccused(id);
      assert view.Abs() == old(view.Abs());
      var _ := EvalNote(note);
      ghost var after := view.Abs();
      reply := EMPTY_REPLY;
      if accused {
        reply := Replies.ReportAccusations(view, id);
        assert view.Abs() == after;
      }
    }

    /** A known requester that is no neighbour is told what it is accused of, if it is. */
    method AnswerObserved(c: Certificate, state: State) returns (outcome: Outcome, reply: Reply)
      requires view.Valid() && !NodeSpec.ShouldBeNeighbour(view.cfg, view.Abs(), c.id) && c.id in view.viewMap
      modifies view`liveMap, view`timeoutMap, view.rings.ringMap.Values, view.viewMap.Values
      ensures view.Valid()
      ensures Protocol.Answers(view.cfg, old(view.Abs()), Some(c), state, view.Abs(), outcome, reply)
    {
      var accused, r := NoteAndReport(c.id, state.ownNote);
      ObservedAnswer(view.cfg, old(view.Abs()), c, state, view.Abs(), r);
      outcome, reply := if accused then Ok else NotMyNeighbour, r;
    }

    /** Takes in a requester and introduces it to this node and to its own neighbours. */
    method AdmitAndIntroduce(c: Certificate, state: State) returns (outcome: Outcome, reply: Reply)
      requires view.Valid()
      modifies view`viewMap, view`liveMap, view`timeoutMap, view.rings.ringMap.Values, view.viewMap.Values
      ensures view.Valid() && (view.Abs(), outcome) == Admitted(view.cfg, old(view.Abs()), c, state.ownNote)
      ensures fresh(view.viewMap.Values - old(view.viewMap.Values))
      ensures outcome == Ok ==> Protocol.IsIntroduction(view.cfg, view.Abs(), c.id, reply)
    {
      reply := EMPTY_REPLY;
      outcome := Admit(c, state.ownNote);
      ghost var after := view.Abs();
      if outcome == Ok {
        reply := Replies.Introduce(view, c.id);
        assert view.Abs() == after;
      }
    }

    /** An unknown requester is introduced. */
    method AnswerNewcomer(c: Certificate, state: State) returns (outcome: Outcome, reply: Reply)
      requires view.Valid() && !NodeSpec.ShouldBeNeighbour(view.cfg, view.Abs(), c.id) && c.id !in view.viewMap
      modifies view`viewMap, view`liveMap, view`timeoutMap, view.rings.ringMap.Values, view.viewMap.Values
      ensures view.Valid()
      ensures fresh(view.viewMap.Values - old(view.viewMap.Values))
      ensures Protocol.Answers(view.cfg, old(view.Abs()), Some(c), state, view.Abs(), outcome, reply)
    {
      outcome, reply := AdmitAndIntroduce(c, state);
      NewcomerAnswer(view.cfg, old(view.Abs()), c, state, view.Abs(), outcome, reply);
    }

    /** Answers the holder of a certificate, by its place on the rings and by whether it is known. */
    method Answer(c: Certificate, state: State, neighbours: bool) returns (outcome: Outcome, reply: Reply)
      requires view.Valid() && (neighbours <==> NodeSpec.ShouldBeNeighbour(view.cfg, view.Abs(), c.id))
      modifies view`viewMap, view`liveMap, view`timeoutMap, view.rings.ringMap.Values, view.viewMap.Values
      ensures view.Valid()
      ensures fresh(view.viewMap.Values - old(view.viewMap.Values))
      ensures Protocol.Answers(view.cfg, old(view.Abs()), Some(c), state, view.Abs(), outcome, reply)
    {
      if neighbours {
        outcome, reply := AnswerNeighbour(c, state);
      } else if c.id in view.viewMap {
        outcome, reply := AnswerObserved(c, state);
      } else {
        outcome, reply := AnswerNewcomer(c, state);
      }
    }

    /** Answers a gossip request from the holder of a certificate, if the connection shows one. */
    method Spread(certificate: Option<Certificate>, state: State) returns (outcome: Outcome, reply: Reply)
      requires view.Valid()
      modifies view`viewMap, view`liveMap, view`timeoutMap, view.rings.ringMap.Values, view.viewMap.Values
      ensures view.Valid()
      ensures fresh(view.viewMap.Values - old(view.viewMap.Values))
      ensures Protocol.Answers(view.cfg, old(view.Abs()), certificate, state, view.Abs(), outcome, reply)
    {
      if certificate.None? {
        return NoCertificate, EMPTY_REPLY;
      }
      ghost var n := view.Abs();
      var neighbours := view.ShouldBeNeighbour(certificate.value.id);
      assert view.Abs() == n;
      outcome, reply := Answer(certificate.value, state, neighbours);
    }

    /** Whatever happens next at the node, the objects end up in the state that the run semantics gives. */
    method Handle(e: Protocol.Event)
      requires view.Valid()
      modifies view, view.rings.ringMap.Values, view.viewMap.Values, view.self`note
      ensures view.Valid() && view.Abs() == Protocol.Apply(view.cfg, old(view.Abs()), e)
      ensures fresh(view.viewMap.Values - old(view.viewMap.Values))
    {
      match e
      case OnRequest(certificate, state) => var _, _ := Spread(certificate, state);
      case OnReply(reply, now) => MergeReply(reply, now);
      case DoGossip(hosts) => var _ := Send(hosts);
      case DoMonitor(verdicts, now) => Monitor(verdicts, now);
      case DoTimeouts(now) => view.CheckTimeouts(now);
    }

    /** Handles events one after the other. The objects follow the run semantics over the whole run, so every theorem
        about runs is a theorem about them. */
    method Serve(events: seq<Protocol.Event>)
      requires view.Valid()
      modifies view, view.rings.ringMap.Values, view.viewMap.Values, view.self`note
      ensures view.Valid() && view.Abs() == Protocol.Run(view.cfg, old(view.Abs()), events)
      ensures fresh(view.viewMap.Values - old(view.viewMap.Values))
    {
      var i := 0;
      while i < |events|
        invariant 0 <= i <= |events| && view.Valid()
        invariant fresh(view.viewMap.Values - old(view.viewMap.Values))
        invariant view.Abs() == Protocol.Run(view.cfg, old(view.Abs()), events[..i])
      {
        assert events[..i + 1][..i] == events[..i];
        Handle(events[i]);
        i := i + 1;
      }
      assert events[..i] == events;
    }
  }

  // ---------------------------------------------------------------------
  // Start-up
  // ---------------------------------------------------------------------

  /** A node that knows only itself, unless its certificate is unusable or there are no rings. */
  method NewLoner(cfg: Config, certificate: Certificate) returns (node: Node?)
    requires Injective(cfg.hash)
    ensures node == null <==> NewPeer(certificate, cfg.numRings).None?
    ensures node != null ==> node.view.Valid() && node.view.cfg == cfg
    ensures node != null ==> node.view.Abs() == Protocol.NewView(cfg, certificate) && node.view.viewMap == map[]
    ensures node != null ==> fresh(node.view) && fresh(node.view.self) && fresh(node.view.rings.ringMap.Values)
  {
    var self := MakePeer(certificate, cfg.numRings);
    if self == null {
      return null;
    }
    var view := new View(cfg, self);
    node := new Node(view);
  }

  /** Starts a node from its own certificate. The contacts of the certificate authority are all taken to be alive, so
      that there is somebody to gossip with. Fails when the certificate is unusable or there are no rings. */
  method NewNode(cfg: Config, certificate: Certificate, contacts: seq<Certificate>) returns (node: Node?)
    requires Injective(cfg.hash)
    ensures node == null <==> NewPeer(certificate, cfg.numRings).None?
    ensures node != null ==> node.view.Valid() && node.view.cfg == cfg
    ensures node != null ==> node.view.Abs() == Protocol.NewNode(cfg, certificate, contacts)
    ensures node != null ==> fresh(node.view) && fresh(node.view.self) && fresh(node.view.viewMap.Values)
    ensures node != null ==> fresh(node.view.rings.ringMap.Values)
  {
    node := NewLoner(cfg, certificate);
    if node != null && cfg.hasCa {
      node.AddContacts(contacts);
    }
  }

  /** The whole life of a node. Whatever it is sent and whatever its clocks and probes say, its objects are in the state
      that the run semantics gives, and with a mask bit for every ring that state is consistent. */
  method Live(cfg: Config, certificate: Certificate, contacts: seq<Certificate>, events: seq<Protocol.Event>)
    returns (node: Node?)
    requires Injective(cfg.hash)
    ensures node == null <==> NewPeer(certificate, cfg.numRings).None?
    ensures node != null ==> node.view.Valid() && node.view.cfg == cfg && cfg.numRings >= 1
    ensures node != null ==>
      && node.view.Abs() == Protocol.Run(cfg, Protocol.NewNode(cfg, certificate, contacts), events)
      && (cfg.numRings <= WORD ==> Invariant.NodeInv(cfg, node.view.Abs()))
  {
    node := NewNode(cfg, certificate, contacts);
    if node != null {
      node.Serve(events);
      if cfg.numRings <= WORD {
        Steps.NewNodeOk(cfg, certificate, contacts);
        Steps.RunKeeps(cfg, Protocol.NewNode(cfg, certificate, contacts), events);
      }
    }
  }
}
