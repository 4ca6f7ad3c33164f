/** Rebuttal closes the loop: the note with which a node answers an accusation clears it everywhere. */
module Rebuttal {
  import opened Types
  import opened Mask
  import opened OwnNote
  import opened PeerSpec
  import opened NodeSpec
  import opened Protocol
  import opened Invariant
  import opened Network

  /** What answering an accusation does to the accused: the next epoch, an acceptable signed note, the accused ring
      disabled where any ring may be. */
  lemma AnswerEffect(cfg: Config, a: NodeState, m: AccusationMsg)
    requires GoodConfig(cfg) && NodeInv(cfg, a) && m.signature.Some? && EvalSelfAccusation(cfg, a, m).1 == Ok
    ensures var a' := EvalSelfAccusation(cfg, a, m).0;
      && m.epoch == a.note.epoch && a'.note.epoch == a.note.epoch + 1
      && a'.certificate == a.certificate && a'.note.id == a.Me() && a'.note.Signed()
      && ValidMask(a'.note.mask, cfg.numRings)
      && (MaxByz(cfg.numRings) >= 1 ==> IsRingDisabled(a'.note.mask, m.ringNum, cfg.numRings))
  {
    AnswerKeeps(OwnOf(a), m.epoch, m.ringNum, cfg.numRings);
  }

  /** The state of `b` after a newer note of another peer reached it: the note is on record, nobody accuses the peer any
      more, it is live, and if it was accused its timer is gone. */
  ghost predicate Cleared(b: NodeState, b': NodeState, note: Note) {
    && note.id in b.full && note.id in b'.full
    && b'.full[note.id].note == Some(note) && !IsAccused(b'.full[note.id])
    && note.id in b'.live
    && (note.id in b'.timers <==> note.id in b.timers && !IsAccused(b.full[note.id]))
  }

  /** Any node that knows the accused at an epoch no newer than the accusation's accepts the answering note, whoever
      delivers it. */
  lemma AnswerIsAccepted(cfg: Config, a: NodeState, m: AccusationMsg, b: NodeState)
    requires GoodConfig(cfg) && NodeInv(cfg, a) && NodeInv(cfg, b)
    requires m.signature.Some? && EvalSelfAccusation(cfg, a, m).1 == Ok
    requires a.Me() in b.full && Epoch(b.full[a.Me()]) <= m.epoch
    ensures var a' := EvalSelfAccusation(cfg, a, m).0;
      var (b', outcome) := EvalNote(cfg, b, a'.note.ToMsg());
      outcome == Ok && Cleared(b, b', a'.note)
  {
    AnswerEffect(cfg, a, m);
    var a' := EvalSelfAccusation(cfg, a, m).0;
    EvalNoteEffect(cfg, b, a'.note.ToMsg());
  }

  /** The accusation is turned away because its ring is disabled, and changes nothing. */
  ghost predicate Refuses(cfg: Config, n: NodeState, m: AccusationMsg, now: int)
    requires cfg.numRings >= 1
  {
    m.accused in n.full && m.signature.Some? && EvalPeerAccusation(cfg, n, m, now) == (n, DisabledRing)
  }

  /** Once cleared, the node refuses every accusation made on the accused ring at the new epoch. */
  lemma AnswerDisablesRing(cfg: Config, a: NodeState, m: AccusationMsg, b': NodeState, again: AccusationMsg, now: int)
    requires GoodConfig(cfg) && NodeInv(cfg, a) && MaxByz(cfg.numRings) >= 1
    requires m.signature.Some? && EvalSelfAccusation(cfg, a, m).1 == Ok
    requires var a' := EvalSelfAccusation(cfg, a, m).0;
      && a.Me() in b'.full && b'.full[a.Me()].note == Some(a'.note) && !IsAccused(b'.full[a.Me()])
      && again.accused == a.Me() && again.epoch == a'.note.epoch && again.ringNum == m.ringNum && again.signature.Some?
    ensures Refuses(cfg, b', again, now)
  {
    AnswerEffect(cfg, a, m);
  }

  /** Delivering the rebuttal: whatever the ring relation between the two, the receiver evaluates the note. */
  lemma DeliveryEvaluatesNote(cfg: Config, b: NodeState, c: Certificate, note: NoteMsg)
    requires GoodConfig(cfg) && c.id in b.full && c.id != b.Me() && Trusted(cfg, c)
    ensures Spread(cfg, b, Some(c), State(map[], note)).0 == EvalNote(cfg, b, note).0
  {
  }

  /** In every run: when a correct node answers an accusation, every correct node that knows it is cleared by the
      delivery of the rebuttal, and with at least one ring to spare refuses the same accusation at the new epoch. No
      assumption on what those nodes had stored is needed: they cannot be ahead of the accused. */
  lemma RebuttalClosesTheLoop(cfg: Config, net: Net, a: Id, b: Id, m: AccusationMsg, again: AccusationMsg, now: int)
    requires GoodConfig(cfg) && Reachable(cfg, net)
    requires a in net.nodes && b in net.nodes && a != b && a in net.nodes[b].full
    requires Trusted(cfg, net.nodes[a].certificate)
    requires m.signature.Some? && EvalSelfAccusation(cfg, net.nodes[a], m).1 == Ok
    requires again.accused == a && again.ringNum == m.ringNum && again.epoch == m.epoch + 1 && again.signature.Some?
    ensures
      var a' := EvalSelfAccusation(cfg, net.nodes[a], m).0;
      var b' := Spread(cfg, net.nodes[b], Some(a'.certificate), State(map[], a'.note.ToMsg())).0;
      && Cleared(net.nodes[b], b', a'.note)
      && (MaxByz(cfg.numRings) >= 1 ==> Refuses(cfg, b', again, now))
  {
    ReachableOk(cfg, net);
    var na, nb := net.nodes[a], net.nodes[b];
    assert NodeAt(cfg, net, a) && NodeAt(cfg, net, b);
    InvTruthful(cfg, net, a, b);
    AnswerEffect(cfg, na, m);
    AnswerIsAccepted(cfg, na, m, nb);
    var a' := EvalSelfAccusation(cfg, na, m).0;
    DeliveryEvaluatesNote(cfg, nb, a'.certificate, a'.note.ToMsg());
    if MaxByz(cfg.numRings) >= 1 {
      AnswerDisablesRing(cfg, na, m, EvalNote(cfg, nb, a'.note.ToMsg()).0, again, now);
    }
  }

  /** However late it arrives: in every reachable state, any note a correct node has ever signed, delivered to a correct
      node that knows the signer, clears the signer where an older epoch was stored and changes nothing elsewhere. */
  lemma SignedNoteClears(cfg: Config, net: Net, a: Id, b: Id, note: Note)
    requires GoodConfig(cfg) && Reachable(cfg, net)
    requires a in net.nodes && b in net.nodes && a != b && a in net.nodes[b].full
    requires Trusted(cfg, net.nodes[a].certificate)
    requires note.id == a && note.Signed() && note.signature in net.nodes[a].signed
    ensures var na, nb := net.nodes[a], net.nodes[b];
      var b' := Spread(cfg, nb, Some(na.certificate), State(map[], note.ToMsg())).0;
      && note.epoch <= na.note.epoch
      && if Epoch(nb.full[a]) < note.epoch then Cleared(nb, b', note) else b' == nb
  {
    ReachableOk(cfg, net);
    var na, nb := net.nodes[a], net.nodes[b];
    assert NodeAt(cfg, net, a) && NodeAt(cfg, net, b);
    assert note.signature.statement == NoteStatement(a, note.epoch, note.mask);
    DeliveryEvaluatesNote(cfg, nb, na.certificate, note.ToMsg());
    EvalNoteEffect(cfg, nb, note.ToMsg());
  }

  /** The sender's current note leaves exactly that note on record at every correct node that knows it. */
  lemma CurrentNoteClears(cfg: Config, net: Net, a: Id, b: Id)
    requires GoodConfig(cfg) && Reachable(cfg, net)
    requires a in net.nodes && b in net.nodes && a != b && a in net.nodes[b].full
    requires Trusted(cfg, net.nodes[a].certificate)
    ensures var na, nb := net.nodes[a], net.nodes[b];
      var b' := Spread(cfg, nb, Some(na.certificate), State(map[], na.note.ToMsg())).0;
      && a in b'.full && b'.full[a].note == Some(na.note)
      && if Epoch(nb.full[a]) < na.note.epoch then Cleared(nb, b', na.note) else b' == nb
  {
    ReachableOk(cfg, net);
    assert NodeAt(cfg, net, a) && NodeAt(cfg, net, b);
    InvTruthful(cfg, net, a, b);
    SignedNoteClears(cfg, net, a, b, net.nodes[a].note);
  }

  /** The rebuttal leaves the node addressed to its neighbours on the current gossip ring. */
  lemma RebuttalIsSent(cfg: Config, a: NodeState, m: AccusationMsg)
    requires GoodConfig(cfg) && NodeInv(cfg, a) && m.signature.Some? && EvalSelfAccusation(cfg, a, m).1 == Ok
    ensures var a' := EvalSelfAccusation(cfg, a, m).0;
      forall t :: t in RingNeighbours(cfg, a, a.gossipRing) ==>
        RequestPacket(t, Some(a.certificate), State(map[], a'.note.ToMsg())) in Outgoing(a, a')
  {
    var a' := EvalSelfAccusation(cfg, a, m).0;
    var i := |a.sent|;
    assert RingNeighbours(cfg, Publish(a, Answer(OwnOf(a), m.epoch, m.ringNum, cfg.numRings).value), a.gossipRing)
        == RingNeighbours(cfg, a, a.gossipRing);
    assert a'.sent[i] == Request(RingNeighbours(cfg, a, a.gossipRing), State(map[], a'.note.ToMsg()));
  }
}
