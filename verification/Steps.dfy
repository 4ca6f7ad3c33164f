/** Every step of a node, from any handler or loop, keeps the invariant and only adds to what the node knows. */
module Steps {
  import opened Types
  import opened Mask
  import opened OwnNote
  import opened PeerSpec
  import opened NodeSpec
  import opened Protocol
  import opened Invariant

  /** A node in good order, and how a step may change it. */
  ghost predicate Keeps(cfg: Config, n: NodeState, n': NodeState) {
    NodeInv(cfg, n') && Evolves(n, n')
  }

  lemma KeepsRefl(cfg: Config, n: NodeState)
    requires NodeInv(cfg, n)
    ensures Keeps(cfg, n, n)
  {
  }

  lemma KeepsTrans(cfg: Config, a: NodeState, b: NodeState, c: NodeState)
    requires Keeps(cfg, a, b) && Keeps(cfg, b, c)
    ensures Keeps(cfg, a, c)
  {
    EvolvesTrans(a, b, c);
  }

  // ---------------------------------------------------------------------
  // Accusations
  // ---------------------------------------------------------------------

  /** Changing the accusations of a peer with a note and then making sure it is timed. */
  lemma AccusedKeeps(cfg: Config, n: NodeState, p: Id, s: PeerState, observer: Id, now: int)
    requires NodeInv(cfg, n) && p in n.full && PeerOk(cfg, p, s)
    requires s.note == n.full[p].note && s.note.Some? && s.certificate == n.full[p].certificate
    ensures Keeps(cfg, n, EnsureTimer(n.Put(p, s), p, observer, now))
  {
    assert EntryAt(cfg, n, p);
    EntryKeeps(cfg, n, EnsureTimer(n.Put(p, s), p, observer, now), p);
  }

  /** An accusation that is on record already only makes sure the accused is timed. */
  lemma KnownAccusationKeeps(cfg: Config, n: NodeState, p: Id, ringNum: nat, observer: Id, now: int)
    requires NodeInv(cfg, n) && p in n.full && RingAccusation(n.full[p], ringNum).Some?
    ensures Keeps(cfg, n, EnsureTimer(n, p, observer, now))
  {
    assert EntryAt(cfg, n, p);
    assert SlotOk(p, n.full[p].note, ringNum, RingAccusation(n.full[p], ringNum));
    assert n.Put(p, n.full[p]) == n;
    AccusedKeeps(cfg, n, p, n.full[p], observer, now);
  }

  lemma NewAccusationKeeps(cfg: Config, n: NodeState, a: Accusation, observer: Id, now: int)
    requires NodeInv(cfg, n) && a.accused in n.full && a.Signed()
    requires n.full[a.accused].note.Some? && n.full[a.accused].note.value.epoch == a.epoch
    requires !IsRingDisabled(n.full[a.accused].note.value.mask, a.ringNum, cfg.numRings)
    requires AddAccusation(n.full[a.accused], a).1 == Ok
    ensures var p := AddAccusation(n.full[a.accused], a).0;
      Keeps(cfg, n, EnsureTimer(n.Put(a.accused, p), a.accused, observer, now))
  {
    assert EntryAt(cfg, n, a.accused);
    AccusedKeeps(cfg, n, a.accused, AddAccusation(n.full[a.accused], a).0, observer, now);
  }

  lemma EvalPeerAccusationKeeps(cfg: Config, n: NodeState, m: AccusationMsg, now: int)
    requires GoodConfig(cfg) && NodeInv(cfg, n) && m.accused in n.full && m.signature.Some?
    ensures Keeps(cfg, n, EvalPeerAccusation(cfg, n, m, now).0)
  {
    match EvalPeerAccusation(cfg, n, m, now).1
    case Ok =>
      NewAccusationKeeps(cfg, n, Accusation(m.accused, m.accuser, m.ringNum, m.epoch, m.signature.value),
                         m.accuser, now);
    case AccusationAlreadyExists =>
      KnownAccusationKeeps(cfg, n, m.accused, m.ringNum, m.accuser, now);
    case _ =>
      KeepsRefl(cfg, n);
  }

  /** A node's next note extends its signatures by one of a fresh epoch. */
  lemma PublishKeeps(cfg: Config, n: NodeState, own: Own)
    requires GoodConfig(cfg) && NodeInv(cfg, n) && Sound(own, cfg.numRings) && own.epoch > n.note.epoch
    ensures Keeps(cfg, n, Publish(n, own))
  {
    var n' := Publish(n, own);
    ConfinedMask(own.mask, cfg.numRings);
    forall q ensures EntryAt(cfg, n', q) && PeerEvolves(n, n', q) {
      assert EntryAt(cfg, n, q);
    }
  }

  lemma SendKeeps(cfg: Config, n: NodeState, hosts: map<Id, nat>)
    requires GoodConfig(cfg) && NodeInv(cfg, n)
    ensures Keeps(cfg, n, SendToPartners(cfg, n, hosts))
  {
    var n' := SendToPartners(cfg, n, hosts);
    NextRingInRange(n.gossipRing, cfg.numRings);
    forall q ensures EntryAt(cfg, n', q) && PeerEvolves(n, n', q) {
      assert EntryAt(cfg, n, q);
    }
  }

  lemma NextRingInRange(ring: nat, numRings: nat)
    requires IsRing(ring, numRings)
    ensures IsRing(NextRing(ring, numRings), numRings)
    ensures NextRing(ring, numRings) == if ring == numRings then 1 else ring + 1
  {
    if ring == numRings {
      assert (ring + 1) % (numRings + 1) == 0;
    } else {
      assert (ring + 1) % (numRings + 1) == ring + 1;
    }
  }

  lemma EvalSelfAccusationKeeps(cfg: Config, n: NodeState, m: AccusationMsg)
    requires GoodConfig(cfg) && NodeInv(cfg, n) && m.signature.Some?
    ensures Keeps(cfg, n, EvalSelfAccusation(cfg, n, m).0)
  {
    var (n', outcome) := EvalSelfAccusation(cfg, n, m);
    if outcome == Ok {
      AnswerKeeps(OwnOf(n), m.epoch, m.ringNum, cfg.numRings);
      var own := Answer(OwnOf(n), m.epoch, m.ringNum, cfg.numRings).value;
      PublishKeeps(cfg, n, own);
      SendKeeps(cfg, Publish(n, own), map[]);
      KeepsTrans(cfg, n, Publish(n, own), n');
    }
  }

  // ---------------------------------------------------------------------
  // Merging
  // ---------------------------------------------------------------------

  lemma MergeAccusationKeeps(cfg: Config, n: NodeState, m: AccusationMsg, now: int)
    requires GoodConfig(cfg) && NodeInv(cfg, n)
    ensures Keeps(cfg, n, MergeAccusation(cfg, n, m, now))
  {
    if KnownParties(n, m) && m.signature.Some? {
      if m.accused == n.Me() {
        EvalSelfAccusationKeeps(cfg, n, m);
      } else {
        EvalPeerAccusationKeeps(cfg, n, m, now);
      }
    }
  }

  lemma {:induction false} MergeCertificatesKeeps(cfg: Config, n: NodeState, cs: seq<Certificate>)
    requires GoodConfig(cfg) && NodeInv(cfg, n)
    ensures Keeps(cfg, n, MergeCertificates(cfg, n, cs))
  {
    if cs != [] {
      var rest := cs[..|cs| - 1];
      MergeCertificatesKeeps(cfg, n, rest);
      EvalCertificateKeeps(cfg, MergeCertificates(cfg, n, rest), cs[|cs| - 1]);
      KeepsTrans(cfg, n, MergeCertificates(cfg, n, rest), MergeCertificates(cfg, n, cs));
    }
  }

  lemma {:induction false} MergeNotesKeeps(cfg: Config, n: NodeState, ms: seq<NoteMsg>)
    requires GoodConfig(cfg) && NodeInv(cfg, n)
    ensures Keeps(cfg, n, MergeNotes(cfg, n, ms))
  {
    if ms != [] {
      var rest := ms[..|ms| - 1];
      MergeNotesKeeps(cfg, n, rest);
      EvalNoteKeeps(cfg, MergeNotes(cfg, n, rest), ms[|ms| - 1]);
      KeepsTrans(cfg, n, MergeNotes(cfg, n, rest), MergeNotes(cfg, n, ms));
    }
  }

  lemma {:induction false} MergeAccusationsKeeps(cfg: Config, n: NodeState, ms: seq<AccusationMsg>, now: int)
    requires GoodConfig(cfg) && NodeInv(cfg, n)
    ensures Keeps(cfg, n, MergeAccusations(cfg, n, ms, now))
  {
    if ms != [] {
      var rest := ms[..|ms| - 1];
      MergeAccusationsKeeps(cfg, n, rest, now);
      MergeAccusationKeeps(cfg, MergeAccusations(cfg, n, rest, now), ms[|ms| - 1], now);
      KeepsTrans(cfg, n, MergeAccusations(cfg, n, rest, now), MergeAccusations(cfg, n, ms, now));
    }
  }

  lemma MergeReplyKeeps(cfg: Config, n: NodeState, reply: Reply, now: int)
    requires GoodConfig(cfg) && NodeInv(cfg, n)
    ensures Keeps(cfg, n, MergeReply(cfg, n, reply, now))
  {
    var n1 := MergeCertificates(cfg, n, reply.certificates);
    var n2 := MergeNotes(cfg, n1, reply.notes);
    MergeCertificatesKeeps(cfg, n, reply.certificates);
    MergeNotesKeeps(cfg, n1, reply.notes);
    MergeAccusationsKeeps(cfg, n2, reply.accusations, now);
    KeepsTrans(cfg, n, n1, n2);
    KeepsTrans(cfg, n, n2, MergeReply(cfg, n, reply, now));
  }

  lemma SpreadKeeps(cfg: Config, n: NodeState, certificate: Option<Certificate>, state: State)
    requires GoodConfig(cfg) && NodeInv(cfg, n)
    ensures Keeps(cfg, n, Spread(cfg, n, certificate, state).0)
  {
    if certificate.Some? {
      var n1 := EvalCertificate(cfg, n, certificate.value).0;
      EvalCertificateKeeps(cfg, n, certificate.value);
      EvalNoteKeeps(cfg, n, state.ownNote);
      EvalNoteKeeps(cfg, n1, state.ownNote);
      KeepsTrans(cfg, n, n1, EvalNote(cfg, n1, state.ownNote).0);
    }
  }

  // ---------------------------------------------------------------------
  // Monitoring and expulsion
  // ---------------------------------------------------------------------

  lemma AccuseSuccessorKeeps(cfg: Config, n: NodeState, q: Id, r: nat, now: int)
    requires GoodConfig(cfg) && NodeInv(cfg, n) && q in n.full
    ensures Keeps(cfg, n, AccuseSuccessor(n, q, r, now))
  {
    assert EntryAt(cfg, n, q);
    var p := n.full[q];
    var n' := AccuseSuccessor(n, q, r, now);
    if p.note.None? {
      EntryKeeps(cfg, n, n', q);
    } else {
      var (p1, outcome) := CreateAccusation(p, p.note.value, n.Me(), r);
      if outcome == Ok {
        var signature := OwnAccusation(p.note.value, n.Me(), r).signature;
        SignKeeps(cfg, n, signature);
        AccusedKeeps(cfg, n.(signed := n.signed + {signature}), q, p1, n.Me(), now);
        KeepsTrans(cfg, n, n.(signed := n.signed + {signature}), n');
      } else if outcome == AccusationAlreadyExists {
        assert n.Put(q, p) == n;
        AccusedKeeps(cfg, n, q, p, n.Me(), now);
      }
    }
  }

  lemma SignKeeps(cfg: Config, n: NodeState, s: Signature)
    requires NodeInv(cfg, n) && s.signer == n.Me() && s.statement.AccusationStatement?
    ensures Keeps(cfg, n, n.(signed := n.signed + {s}))
  {
    var n' := n.(signed := n.signed + {s});
    forall q ensures EntryAt(cfg, n', q) && PeerEvolves(n, n', q) {
      assert EntryAt(cfg, n, q);
    }
  }

  lemma MonitorStepKeeps(cfg: Config, n: NodeState, dead: bool, now: int)
    requires GoodConfig(cfg) && NodeInv(cfg, n)
    ensures Keeps(cfg, n, MonitorStep(cfg, n, dead, now))
  {
    var n1 := n.(monitorRing := NextRing(n.monitorRing, cfg.numRings));
    NextRingInRange(n.monitorRing, cfg.numRings);
    forall q ensures EntryAt(cfg, n1, q) && PeerEvolves(n, n1, q) {
      assert EntryAt(cfg, n, q);
    }
    var target := RingSuccessor(cfg, n, n.monitorRing);
    if target.Some? && target.value in n.full {
      AccuseSuccessorKeeps(cfg, n1, target.value, n.monitorRing, now);
      KeepsTrans(cfg, n, n1, AccuseSuccessor(n1, target.value, n.monitorRing, now));
    }
  }

  lemma {:induction false} MonitorRoundKeeps(cfg: Config, n: NodeState, verdicts: seq<bool>, now: int)
    requires GoodConfig(cfg) && NodeInv(cfg, n)
    ensures Keeps(cfg, n, MonitorRound(cfg, n, verdicts, now))
  {
    if verdicts != [] {
      var rest := verdicts[..|verdicts| - 1];
      MonitorRoundKeeps(cfg, n, rest, now);
      MonitorStepKeeps(cfg, MonitorRound(cfg, n, rest, now), verdicts[|verdicts| - 1], now);
      KeepsTrans(cfg, n, MonitorRound(cfg, n, rest, now), MonitorRound(cfg, n, verdicts, now));
    }
  }

  /** Expelling a peer takes its timer along. */
  lemma CheckTimeoutsKeeps(cfg: Config, n: NodeState, now: int)
    requires NodeInv(cfg, n)
    ensures Keeps(cfg, n, CheckTimeouts(cfg, n, now))
  {
    var n' := CheckTimeouts(cfg, n, now);
    forall q ensures EntryAt(cfg, n', q) && PeerEvolves(n, n', q) {
      assert EntryAt(cfg, n, q);
    }
  }

  // ---------------------------------------------------------------------
  // Runs
  // ---------------------------------------------------------------------

  lemma ApplyKeeps(cfg: Config, n: NodeState, e: Event)
    requires GoodConfig(cfg) && NodeInv(cfg, n)
    ensures Keeps(cfg, n, Apply(cfg, n, e))
  {
    match e
    case OnRequest(certificate, state) => SpreadKeeps(cfg, n, certificate, state);
    case OnReply(reply, now) => MergeReplyKeeps(cfg, n, reply, now);
    case DoGossip(hosts) => SendKeeps(cfg, n, hosts);
    case DoMonitor(verdicts, now) => MonitorRoundKeeps(cfg, n, verdicts, now);
    case DoTimeouts(now) => CheckTimeoutsKeeps(cfg, n, now);
  }

  /** Every reachable state of a node is consistent, and nothing it knew is lost along the way. */
  lemma {:induction false} RunKeeps(cfg: Config, n: NodeState, events: seq<Event>)
    requires GoodConfig(cfg) && NodeInv(cfg, n)
    ensures Keeps(cfg, n, Run(cfg, n, events))
  {
    if events != [] {
      var rest := events[..|events| - 1];
      RunKeeps(cfg, n, rest);
      ApplyKeeps(cfg, Run(cfg, n, rest), events[|events| - 1]);
      KeepsTrans(cfg, n, Run(cfg, n, rest), Run(cfg, n, events));
    }
  }

  lemma NewViewOk(cfg: Config, certificate: Certificate)
    requires GoodConfig(cfg)
    ensures NodeInv(cfg, NewView(cfg, certificate))
  {
    FreshIsSound(cfg.numRings);
    ConfinedMask(Fresh(cfg.numRings).mask, cfg.numRings);
  }

  ghost predicate Unaccused(n: NodeState) {
    forall q :: q in n.full ==> !IsAccused(n.full[q])
  }

  /** Certificates alone bring no accusation, no live peer and no timer. */
  lemma {:induction false} MergeCertificatesBare(cfg: Config, n: NodeState, cs: seq<Certificate>)
    requires Unaccused(n)
    ensures var n' := MergeCertificates(cfg, n, cs);
      Unaccused(n') && n'.live == n.live && n'.timers == n.timers
  {
    if cs != [] {
      MergeCertificatesBare(cfg, n, cs[..|cs| - 1]);
    }
  }

  /** Where nobody is accused, joining changes no record. */
  lemma JoinUnaccused(cfg: Config, n: NodeState, p: Id)
    requires Unaccused(n)
    ensures AddLive(cfg, n, p) == n.(live := n.live + {p})
  {
    if p !in n.live {
      forall q | q in n.full ensures Prune(cfg, n.Members(), p, q, n.full[q]) == n.full[q] {
      }
      assert AddLive(cfg, n, p).full == n.full;
    }
  }

  /** The start-up state is consistent. */
  lemma NewNodeOk(cfg: Config, certificate: Certificate, contacts: seq<Certificate>)
    requires GoodConfig(cfg)
    ensures NodeInv(cfg, NewNode(cfg, certificate, contacts))
  {
    var n := NewView(cfg, certificate);
    NewViewOk(cfg, certificate);
    MergeCertificatesKeeps(cfg, n, contacts);
    MergeCertificatesBare(cfg, n, contacts);
    var n1 := MergeCertificates(cfg, n, contacts);
    var n2 := n1.(live := n1.full.Keys);
    forall q ensures EntryAt(cfg, n2, q) {
      assert EntryAt(cfg, n1, q);
    }
  }
}
