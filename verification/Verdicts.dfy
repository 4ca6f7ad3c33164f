/** Exactly which accusations a node acts on, said on positions, bits, epochs and signatures. */
module Verdicts {
  import opened Types
  import opened Mask
  import opened Circle
  import opened NodeSpec
  import opened Protocol
  import opened Invariant
  import opened SmallSteps
  import opened Steps
  import opened Network

  /** On an existing ring, no live peer, nor the node, stands strictly between the accuser and the accused. */
  ghost predicate ClearPath(cfg: Config, n: NodeState, m: AccusationMsg) {
    && 1 <= m.ringNum <= cfg.numRings
    && forall x :: x in n.live || x == n.Me() ==>
         !Inside(cfg.hash(m.ringNum, m.accuser), cfg.hash(m.ringNum, m.accused), cfg.hash(m.ringNum, x))
  }

  /** The accusation carries the accuser's own signature over exactly what it says. */
  predicate Vouched(m: AccusationMsg) {
    m.signature == Some(Signature(m.accuser, AccusationStatement(m.accused, m.accuser, m.ringNum, m.epoch)))
  }

  // ---------------------------------------------------------------------
  // Accusations of the node itself
  // ---------------------------------------------------------------------

  /** An accusation of the node is answered exactly when its path is clear, its accuser signed it and it names the
      node's current epoch. Any other changes nothing, and the refusal names the first thing that is wrong. */
  lemma SelfAccusationExactly(cfg: Config, n: NodeState, m: AccusationMsg)
    requires cfg.numRings >= 1 && m.signature.Some? && m.accused == n.Me()
    ensures var (n', outcome) := EvalSelfAccusation(cfg, n, m);
      && (outcome == Ok <==> ClearPath(cfg, n, m) && Vouched(m) && m.epoch == n.note.epoch)
      && (outcome == Ok ==> n'.note.epoch == n.note.epoch + 1 && n'.full == n.full && n'.live == n.live
                            && n'.timers == n.timers && n'.certificate == n.certificate)
      && (outcome != Ok ==> n' == n)
      && (outcome == InvalidAccuser <==> !ClearPath(cfg, n, m))
      && (outcome == InvalidSignature <==> ClearPath(cfg, n, m) && !Vouched(m))
      && (outcome == InvalidSelfAccusation <==> ClearPath(cfg, n, m) && Vouched(m) && m.epoch != n.note.epoch)
  {
    assert n.Me() in n.Members();
    assert ValidAccuser(cfg, n, n.Me(), m.accuser, m.ringNum) <==> ClearPath(cfg, n, m);
  }

  // ---------------------------------------------------------------------
  // Accusations of others
  // ---------------------------------------------------------------------

  /** The same accuser, ring and epoch are already on record for the accused. */
  predicate OnFile(n: NodeState, m: AccusationMsg)
    requires m.accused in n.full
  {
    var slots := n.full[m.accused].accusations;
    && m.ringNum in slots && slots[m.ringNum].Some?
    && slots[m.ringNum].value.accused == m.accused && slots[m.ringNum].value.accuser == m.accuser
    && slots[m.ringNum].value.ringNum == m.ringNum && slots[m.ringNum].value.epoch == m.epoch
  }

  /** The accused's stored note has the epoch of the accusation and leaves the ring on. */
  predicate Current(n: NodeState, m: AccusationMsg)
    requires m.accused in n.full
  {
    var note := n.full[m.accused].note;
    note.Some? && note.value.epoch == m.epoch && m.ringNum >= 1 && HasBit(note.value.mask, m.ringNum - 1)
  }

  /** The accuser stands before the accused; one id that is not on the ring counts as its own predecessor. */
  ghost predicate StandsBefore(cfg: Config, n: NodeState, m: AccusationMsg) {
    || ClearPath(cfg, n, m)
    || (1 <= m.ringNum <= cfg.numRings && m.accuser == m.accused && m.accused !in n.live && m.accused != n.Me())
  }

  /** The timers after the accused of `m` was found accused: a live peer without a timer gets one that starts now. */
  function TimersAfter(n: NodeState, m: AccusationMsg, now: int): map<Id, Timer>
    requires m.accused in n.full && n.full[m.accused].note.Some?
  {
    if m.accused in n.live && m.accused !in n.timers
    then n.timers[m.accused := Timer(m.accuser, now, n.full[m.accused].note.value, m.accused)] else n.timers
  }

  /** A new accusation is stored exactly when it is current, its accuser stands before the accused, live or not, and
      signed it. It fills the slot of its ring and times a live accused; one that is on file only does the latter;
      any other changes nothing. */
  lemma PeerAccusationExactly(cfg: Config, n: NodeState, m: AccusationMsg, now: int)
    requires GoodConfig(cfg) && NodeInv(cfg, n) && m.signature.Some? && m.accused in n.full && m.accuser.bytes != ""
    ensures var (n', outcome) := EvalPeerAccusation(cfg, n, m, now);
      var p := n.full[m.accused];
      && (outcome == AccusationAlreadyExists <==> OnFile(n, m))
      && (outcome == Ok <==> !OnFile(n, m) && Current(n, m) && StandsBefore(cfg, n, m) && Vouched(m))
      && (outcome == AccusationAlreadyExists ==> p.note.Some? && n' == n.(timers := TimersAfter(n, m, now)))
      && (outcome == Ok ==>
           var a := Accusation(m.accused, m.accuser, m.ringNum, m.epoch, m.signature.value);
           var p' := p.(accusations := p.accusations[m.ringNum := Some(a)]);
           n' == n.(full := n.full[m.accused := p'], timers := TimersAfter(n, m, now)))
      && (outcome != Ok && outcome != AccusationAlreadyExists ==> n' == n)
  {
    assert EntryAt(cfg, n, m.accused);
    var p := n.full[m.accused];
    assert OnFile(n, m) ==> SlotOk(m.accused, p.note, m.ringNum, p.accusations[m.ringNum]);
    StandsBeforeDecides(cfg, n, m);
  }

  /** In any state, consistent or not: an accusation that is on file is not stored again, but a live accused that has no
      timer gets one. */
  lemma OnFileIsTimed(cfg: Config, n: NodeState, m: AccusationMsg, now: int)
    requires cfg.numRings >= 1 && m.signature.Some? && m.accused in n.full && OnFile(n, m)
    requires n.full[m.accused].note.Some? && n.full[m.accused].note.value.id == m.accused
    ensures EvalPeerAccusation(cfg, n, m, now) == (n.(timers := TimersAfter(n, m, now)), AccusationAlreadyExists)
  {
  }

  lemma StandsBeforeDecides(cfg: Config, n: NodeState, m: AccusationMsg)
    ensures ValidAccuser(cfg, n, m.accused, m.accuser, m.ringNum) <==> StandsBefore(cfg, n, m)
  {
  }

  /** What a refusal says: the first thing that is wrong, in the order epoch, ring, accuser, signature. */
  lemma RefusalsExactly(cfg: Config, n: NodeState, m: AccusationMsg, now: int)
    requires GoodConfig(cfg) && NodeInv(cfg, n) && m.signature.Some? && m.accused in n.full && m.accuser.bytes != ""
    ensures var outcome := EvalPeerAccusation(cfg, n, m, now).1;
      var note := n.full[m.accused].note;
      var otherEpoch := note.None? || note.value.epoch != m.epoch;
      var off := note.Some? && 1 <= m.ringNum <= cfg.numRings && !HasBit(note.value.mask, m.ringNum - 1);
      !OnFile(n, m) ==>
        && (outcome == InvalidEpoch <==> otherEpoch)
        && (outcome == DisabledRing <==> !otherEpoch && off)
        && (outcome == InvalidAccuser <==> !otherEpoch && !off && !StandsBefore(cfg, n, m))
        && (outcome == InvalidSignature <==> !otherEpoch && !off && StandsBefore(cfg, n, m) && !Vouched(m))
  {
    assert EntryAt(cfg, n, m.accused);
    StandsBeforeDecides(cfg, n, m);
  }

  // ---------------------------------------------------------------------
  // Accusations in a reply
  // ---------------------------------------------------------------------

  /** The node knows the accuser, or is the accuser. */
  predicate KnowsAccuser(n: NodeState, m: AccusationMsg) {
    m.accuser == n.Me() || m.accuser in n.full
  }

  /** The accusation calls for an answer of this node. */
  ghost predicate CallsForAnswer(cfg: Config, n: NodeState, m: AccusationMsg) {
    m.accused == n.Me() && KnowsAccuser(n, m) && ClearPath(cfg, n, m) && Vouched(m) && m.epoch == n.note.epoch
  }

  /** Merging an accusation. Of the node itself it is answered exactly when it calls for an answer. Of a known peer with
      a note, by a known accuser, it is evaluated. Any other is passed over. */
  lemma MergeAccusationExactly(cfg: Config, n: NodeState, m: AccusationMsg, now: int)
    requires GoodConfig(cfg) && NodeInv(cfg, n)
    ensures var n' := MergeAccusation(cfg, n, m, now);
      && n'.live == n.live && n'.certificate == n.certificate && n'.full.Keys == n.full.Keys
      && n'.note.epoch == (if CallsForAnswer(cfg, n, m) then n.note.epoch + 1 else n.note.epoch)
      && (m.accused == n.Me() ==> n'.full == n.full && n'.timers == n.timers)
      && (m.accused == n.Me() && !CallsForAnswer(cfg, n, m) ==> n' == n)
      && (m.accused in n.full && n.full[m.accused].note.Some? && KnowsAccuser(n, m) && m.signature.Some? ==>
           n' == EvalPeerAccusation(cfg, n, m, now).0)
      && (m.accused != n.Me() && (m.accused !in n.full || n.full[m.accused].note.None?) ==> n' == n)
      && (!KnowsAccuser(n, m) || m.signature.None? ==> n' == n)
  {
    if m.accused == n.Me() && m.signature.Some? {
      SelfAccusationExactly(cfg, n, m);
    }
  }

  /** The accusations a node is sent about itself are answered: if any of them calls for an answer, the node ends at a
      later epoch, whatever the others are. */
  lemma {:induction false} AccusationsAreAnswered(cfg: Config, n: NodeState, ms: seq<AccusationMsg>, now: int, i: nat)
    requires GoodConfig(cfg) && NodeInv(cfg, n) && i < |ms| && CallsForAnswer(cfg, n, ms[i])
    ensures n.note.epoch < MergeAccusations(cfg, n, ms, now).note.epoch
  {
    var rest, last := ms[..|ms| - 1], ms[|ms| - 1];
    var before := MergeAccusations(cfg, n, rest, now);
    MergeAccusationsKeeps(cfg, n, rest, now);
    MergeAccusationExactly(cfg, before, last, now);
    if i < |ms| - 1 {
      AccusationsAreAnswered(cfg, n, rest, now, i);
    } else {
      MergingLeavesMembers(cfg, n, rest, now);
      assert before.note.epoch == n.note.epoch ==> CallsForAnswer(cfg, before, last);
    }
  }

  /** Accusations change neither who is live nor who is known. */
  lemma {:induction false} MergingLeavesMembers(cfg: Config, n: NodeState, ms: seq<AccusationMsg>, now: int)
    requires GoodConfig(cfg) && NodeInv(cfg, n)
    ensures var n' := MergeAccusations(cfg, n, ms, now);
      && n'.live == n.live && n'.certificate == n.certificate && n'.full.Keys == n.full.Keys
      && n.note.epoch <= n'.note.epoch
  {
    if ms != [] {
      MergingLeavesMembers(cfg, n, ms[..|ms| - 1], now);
      MergeAccusationsKeeps(cfg, n, ms[..|ms| - 1], now);
      MergeAccusationExactly(cfg, MergeAccusations(cfg, n, ms[..|ms| - 1], now), ms[|ms| - 1], now);
    }
  }

  // ---------------------------------------------------------------------
  // Why a node's epoch rises
  // ---------------------------------------------------------------------

  /** A small step is an accusation of the node that its accuser signed, not older than the node's note. */
  ghost predicate IsChallenge(n: NodeState, s: Small) {
    && s.TakeAccusation? && s.accusation.accused == n.Me() && Vouched(s.accusation)
    && n.note.epoch <= s.accusation.epoch
  }

  lemma EpochStep(cfg: Config, n: NodeState, s: Small)
    requires GoodConfig(cfg) && NodeInv(cfg, n)
    ensures Do(cfg, n, s).note.epoch != n.note.epoch ==> IsChallenge(n, s)
    ensures Do(cfg, n, s).Me() == n.Me() && n.note.epoch <= Do(cfg, n, s).note.epoch
  {
    DoKeeps(cfg, n, s);
    match s
    case TakeAccusation(m, now) => MergeAccusationExactly(cfg, n, m, now);
    case TakeNote(m) => NoteLeavesOwn(cfg, n, m);
    case _ =>
  }

  lemma NoteLeavesOwn(cfg: Config, n: NodeState, m: NoteMsg)
    ensures EvalNote(cfg, n, m).0.note == n.note
  {
  }

  lemma {:induction false} EpochSteps(cfg: Config, n: NodeState, ss: seq<Small>)
    requires GoodConfig(cfg) && NodeInv(cfg, n) && DoAll(cfg, n, ss).note.epoch != n.note.epoch
    ensures exists i :: 0 <= i < |ss| && IsChallenge(n, ss[i])
  {
    var rest := ss[..|ss| - 1];
    DoAllKeeps(cfg, n, rest);
    EpochStep(cfg, DoAll(cfg, n, rest), ss[|ss| - 1]);
    if DoAll(cfg, n, rest).note.epoch != n.note.epoch {
      EpochSteps(cfg, n, rest);
      var i :| 0 <= i < |rest| && IsChallenge(n, rest[i]);
      assert IsChallenge(n, ss[i]);
    } else {
      assert IsChallenge(n, ss[|ss| - 1]);
    }
  }

  /** The accusation makes the epoch of a node at `epoch` rise. */
  predicate Challenges(m: AccusationMsg, a: Id, epoch: nat) {
    m.accused == a && epoch <= m.epoch && Vouched(m)
  }

  /** Accusations come with replies only. */
  lemma AccusationParts(cfg: Config, n: NodeState, e: Event, i: nat)
    requires i < |Parts(cfg, n, e)| && Parts(cfg, n, e)[i].TakeAccusation?
    ensures e.OnReply? && Parts(cfg, n, e)[i].accusation in e.reply.accusations
  {
  }

  /** A node's epoch rises only on a reply with an accusation of it that its accuser signed. */
  lemma EventRises(cfg: Config, n: NodeState, e: Event)
    requires GoodConfig(cfg) && NodeInv(cfg, n) && Apply(cfg, n, e).note.epoch != n.note.epoch
    ensures e.OnReply? && exists m :: m in e.reply.accusations && Challenges(m, n.Me(), n.note.epoch)
  {
    var ss := Parts(cfg, n, e);
    EventIs(cfg, n, e);
    EpochSteps(cfg, n, ss);
    var i :| 0 <= i < |ss| && IsChallenge(n, ss[i]);
    AccusationParts(cfg, n, e, i);
  }

  /** In every reachable state of the network, a correct node's epoch rises only when a reply is delivered that holds an
      accusation of it, at its epoch or a later one, signed by the accuser; and if the accuser is a correct node, that
      node has made the accusation. */
  lemma EpochRisesOnlyWhenAccused(cfg: Config, net: Net, e: NetEvent, a: Id)
    requires GoodConfig(cfg) && Reachable(cfg, net) && Enabled(cfg, net, e) && a in net.nodes
    ensures a in Step(cfg, net, e).nodes
    ensures Step(cfg, net, e).nodes[a].note.epoch != net.nodes[a].note.epoch ==>
      && e.DeliverReply? && e.packet.ReplyPacket? && e.packet.to == a
      && exists m :: m in e.packet.reply.accusations && Challenges(m, a, net.nodes[a].note.epoch)
           && (m.accuser in net.nodes ==> m.signature.value in net.nodes[m.accuser].signed)
  {
    ReachableOk(cfg, net);
    assert NodeAt(cfg, net, a);
    var n := net.nodes[a];
    if Step(cfg, net, e).nodes[a].note.epoch != n.note.epoch {
      match e
      case DeliverRequest(packet, _) => EventRises(cfg, n, OnRequest(packet.certificate, packet.state));
      case Internal(_, event) => EventRises(cfg, n, event);
      case DeliverReply(packet, now) =>
        EventRises(cfg, n, OnReply(packet.reply, now));
        var m :| m in packet.reply.accusations && Challenges(m, a, n.note.epoch);
        assert PacketWithin(packet, Known(net));
        assert m.signature.value in Known(net);
    }
  }
}
