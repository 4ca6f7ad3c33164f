/** What becomes of a silent successor: it is accused, the accusation is accepted by every node that agrees on the
    membership, and it reaches the accused in a form that it can answer. */
module Monitoring {
  import opened Types
  import opened Mask
  import opened OwnNote
  import opened Circle
  import opened PeerSpec
  import opened NodeSpec
  import opened Protocol
  import opened Invariant
  import opened Steps
  import Predecessors
  import RingOrder

  /** A peer's slot of ring `r` holds the accusation by `accuser` for the peer's stored note, and the peer is timed. */
  ghost predicate Accused(n: NodeState, q: Id, r: nat, accuser: Id) {
    && q in n.full && n.full[q].note.Some? && n.full[q].note.value.id == q && r in n.full[q].accusations
    && n.full[q].accusations[r] == Some(OwnAccusation(n.full[q].note.value, accuser, r))
    && q in n.live && q in n.timers
  }

  /** A successor found dead is accused by this node on the probed ring and timed, or dropped when it never sent a note.
      It makes no difference whether the accusation was on record already. */
  lemma DeadIsAccused(cfg: Config, n: NodeState, q: Id, now: int)
    requires GoodConfig(cfg) && NodeInv(cfg, n) && RingSuccessor(cfg, n, n.monitorRing) == Some(q)
    ensures var n' := MonitorStep(cfg, n, true, now);
      && q in n.full
      && (n.full[q].note.None? ==> q !in n'.live && n'.full == n.full)
      && (n.full[q].note.Some? ==> Accused(n', q, n.monitorRing, n.Me()) && n'.full[q].note == n.full[q].note)
  {
    assert IsTarget(cfg, n, n.monitorRing, q);
    assert EntryAt(cfg, n, q);
    assert SlotOk(q, n.full[q].note, n.monitorRing, n.full[q].accusations[n.monitorRing]);
  }

  /** Every other node with the same membership and the same note for the accused ends with the accusation on record and
      the accused timed. The one exception: it refuses a new accusation on a ring that the note disables. */
  lemma AccusationIsAccepted(cfg: Config, n: NodeState, q: Id, r: nat, other: NodeState, now: int)
    requires GoodConfig(cfg) && NodeInv(cfg, n) && NodeInv(cfg, other) && other.Members() == n.Members()
    requires RingSuccessor(cfg, n, r) == Some(q) && Accused(n, q, r, n.Me())
    requires q in other.full && n.Me() in other.full && other.full[q].note == n.full[q].note
    ensures var a := n.full[q].accusations[r];
      var (other', outcome) := EvalPeerAccusation(cfg, other, a.value.ToMsg(), now);
      if IsRingDisabled(n.full[q].note.value.mask, r, cfg.numRings) && RingAccusation(other.full[q], r) != a
      then outcome == DisabledRing && other' == other
      else (outcome == Ok || outcome == AccusationAlreadyExists) && Accused(other', q, r, n.Me())
  {
    assert IsTarget(cfg, n, r, q);
    assert EntryAt(cfg, n, q) && EntryAt(cfg, other, q) && EntryAt(cfg, other, n.Me());
    assert q in other.Members();
    assert SlotOk(q, other.full[q].note, r, RingAccusation(other.full[q], r));
    Predecessors.MonitorTargetIsValid(cfg, n, other, r);
  }

  /** The accused itself, when it agrees on the membership and is still at that epoch, answers the accusation. */
  lemma AccusedAnswers(cfg: Config, n: NodeState, q: Id, r: nat, a: NodeState)
    requires GoodConfig(cfg) && NodeInv(cfg, n) && NodeInv(cfg, a) && a.Members() == n.Members() && a.Me() == q
    requires RingSuccessor(cfg, n, r) == Some(q) && Accused(n, q, r, n.Me())
    ensures var (a', outcome) := EvalSelfAccusation(cfg, a, n.full[q].accusations[r].value.ToMsg());
      if a.note.epoch == n.full[q].note.value.epoch
      then outcome == Ok && a'.note.epoch == a.note.epoch + 1
      else outcome == InvalidSelfAccusation && a' == a
  {
    assert IsTarget(cfg, n, r, q);
    assert EntryAt(cfg, n, q);
    Predecessors.MonitorTargetIsValid(cfg, n, a, r);
    AnswerKeeps(OwnOf(a), n.full[q].note.value.epoch, r, cfg.numRings);
  }

  /** In any state, consistent or not: a peer found dead that has a note ends accused by the node on the ring, at the
      stored epoch, and a live one without a timer gets one that starts now. A running timer and the other slots
      stay. */
  lemma AccusingExactly(n: NodeState, q: Id, r: nat, now: int)
    requires q in n.full && n.full[q].note.Some? && n.full[q].note.value.id == q && r in n.full[q].accusations
    ensures var n' := AccuseSuccessor(n, q, r, now);
      var note := n.full[q].note.value;
      && q in n'.full && n'.full == n.full[q := n'.full[q]] && n'.full[q].note == n.full[q].note && n'.live == n.live
      && n'.full[q].accusations.Keys == n.full[q].accusations.Keys
      && (forall s :: s in n.full[q].accusations && s != r ==> n'.full[q].accusations[s] == n.full[q].accusations[s])
      && n'.full[q].accusations[r].Some? && n'.full[q].accusations[r].value.Equal(q, n.Me(), r, note.epoch)
      && n'.timers == if q in n.live && q !in n.timers then n.timers[q := Timer(n.Me(), now, note, q)] else n.timers
  {
  }

  // ---------------------------------------------------------------------
  // Only the dead
  // ---------------------------------------------------------------------

  /** A round in which every probe is answered changes nothing but the ring to probe next. */
  lemma {:induction false} QuietRound(cfg: Config, n: NodeState, verdicts: seq<bool>, now: int)
    requires forall k :: 0 <= k < |verdicts| ==> !verdicts[k]
    ensures var n' := MonitorRound(cfg, n, verdicts, now);
      n' == n.(monitorRing := n'.monitorRing)
  {
    if verdicts != [] {
      QuietRound(cfg, n, verdicts[..|verdicts| - 1], now);
    }
  }

  /** `q` is the peer that comes right after the node on the ring it probes next. */
  ghost predicate IsProbed(cfg: Config, n: NodeState, q: Id) {
    && q in n.live && q != n.Me() && 1 <= n.monitorRing <= cfg.numRings
    && forall x :: x in n.live || x == n.Me() ==>
         !Inside(cfg.hash(n.monitorRing, n.Me()), cfg.hash(n.monitorRing, q), cfg.hash(n.monitorRing, x))
  }

  /** The target of a probe is that peer, and there is one as soon as anybody is live. */
  lemma ProbedExactly(cfg: Config, n: NodeState, q: Id)
    requires GoodConfig(cfg)
    ensures RingSuccessor(cfg, n, n.monitorRing) == Some(q) <==> IsProbed(cfg, n, q)
  {
    assert IsProbed(cfg, n, q) <==> IsTarget(cfg, n, n.monitorRing, q);
    forall x | IsTarget(cfg, n, n.monitorRing, x) && IsProbed(cfg, n, q) ensures x == q {
      NeighbourUnique(cfg.hash, n.monitorRing, n.Members(), n.Me(), x, q);
    }
  }

  lemma SomebodyIsProbed(cfg: Config, n: NodeState) returns (q: Id)
    requires GoodConfig(cfg) && IsRing(n.monitorRing, cfg.numRings) && n.live != {} && n.Me() !in n.live
    ensures IsProbed(cfg, n, q)
  {
    var x :| x in n.live;
    assert {x, n.Me()} <= n.Members();
    assert |n.Members()| >= |{x, n.Me()}| by {
      assert n.Members() == (n.Members() - {x, n.Me()}) + {x, n.Me()};
    }
    q := RingOrder.UniqueTarget(cfg.hash, n.monitorRing, n.Members(), n.Me());
  }

  /** What a node remembers about `q` is the same in both states. */
  ghost predicate SameAbout(n: NodeState, n': NodeState, q: Id) {
    && (q in n'.full <==> q in n.full) && (q in n.full ==> n'.full[q] == n.full[q])
    && (q in n'.live <==> q in n.live)
    && (q in n'.timers <==> q in n.timers) && (q in n.timers ==> n'.timers[q] == n.timers[q])
  }

  /** A signature of the node over its accusation of the peer it probes, at the stored epoch and on the probed ring. */
  ghost predicate AccusesProbed(cfg: Config, n: NodeState, s: Signature) {
    exists q :: IsProbed(cfg, n, q) && q in n.full && n.full[q].note.Some? &&
      s == Signature(n.Me(), AccusationStatement(
        n.full[q].note.value.id, n.Me(), n.monitorRing, n.full[q].note.value.epoch))
  }

  /** One probe touches only what is remembered about the peer that was probed and found dead, and signs at most the
      accusation of that peer on that ring. */
  lemma ProbeTouchesOnlyTheDead(cfg: Config, n: NodeState, dead: bool, now: int)
    ensures var n' := MonitorStep(cfg, n, dead, now);
      && (forall q :: SameAbout(n, n', q) || (dead && IsProbed(cfg, n, q)))
      && (forall s :: s in n'.signed && s !in n.signed ==> dead && AccusesProbed(cfg, n, s))
      && n'.certificate == n.certificate && n'.note == n.note && n'.sent == n.sent
  {
    var target := RingSuccessor(cfg, n, n.monitorRing);
    if target.Some? {
      assert IsTarget(cfg, n, n.monitorRing, target.value);
      assert IsProbed(cfg, n, target.value);
    }
  }

  /** The `k`-th probe of a round found `q` dead. */
  ghost predicate FoundDead(cfg: Config, n: NodeState, verdicts: seq<bool>, now: int, q: Id, k: nat) {
    k < |verdicts| && verdicts[k] && IsProbed(cfg, MonitorRound(cfg, n, verdicts[..k], now), q)
  }

  lemma FoundDeadEarlier(cfg: Config, n: NodeState, verdicts: seq<bool>, now: int, q: Id, k: nat)
    requires verdicts != [] && FoundDead(cfg, n, verdicts[..|verdicts| - 1], now, q, k)
    ensures FoundDead(cfg, n, verdicts, now, q, k)
  {
    assert verdicts[..|verdicts| - 1][..k] == verdicts[..k];
  }

  /** A whole round: whoever is newly accused, timed or dropped was probed in it, on some ring, and found dead. */
  lemma {:induction false} RoundTouchesOnlyTheDead(cfg: Config, n: NodeState, verdicts: seq<bool>, now: int, q: Id)
    ensures
      || SameAbout(n, MonitorRound(cfg, n, verdicts, now), q)
      || exists k: nat :: FoundDead(cfg, n, verdicts, now, q, k)
  {
    if verdicts != [] {
      var last := |verdicts| - 1;
      var before := MonitorRound(cfg, n, verdicts[..last], now);
      RoundTouchesOnlyTheDead(cfg, n, verdicts[..last], now, q);
      ProbeTouchesOnlyTheDead(cfg, before, verdicts[last], now);
      if !SameAbout(n, before, q) {
        var k: nat :| FoundDead(cfg, n, verdicts[..last], now, q, k);
        FoundDeadEarlier(cfg, n, verdicts, now, q, k);
      } else if !SameAbout(before, MonitorRound(cfg, n, verdicts, now), q) {
        assert FoundDead(cfg, n, verdicts, now, q, last);
      }
    }
  }

  /** The `k`-th probe of a round ended in "dead" and `s` is the accusation that follows from it. */
  ghost predicate SignedFor(cfg: Config, n: NodeState, verdicts: seq<bool>, now: int, s: Signature, k: nat) {
    k < |verdicts| && verdicts[k] && AccusesProbed(cfg, MonitorRound(cfg, n, verdicts[..k], now), s)
  }

  /** A whole round signs nothing but accusations of the peers it found dead. */
  lemma {:induction false} RoundSignsOnlyForTheDead(cfg: Config, n: NodeState, verdicts: seq<bool>, now: int,
                                                    s: Signature)
    requires s in MonitorRound(cfg, n, verdicts, now).signed && s !in n.signed
    ensures exists k: nat :: SignedFor(cfg, n, verdicts, now, s, k)
  {
    var last := |verdicts| - 1;
    var before := MonitorRound(cfg, n, verdicts[..last], now);
    if s in before.signed {
      RoundSignsOnlyForTheDead(cfg, n, verdicts[..last], now, s);
      var k: nat :| SignedFor(cfg, n, verdicts[..last], now, s, k);
      assert verdicts[..last][..k] == verdicts[..k];
      assert SignedFor(cfg, n, verdicts, now, s, k);
    } else {
      ProbeTouchesOnlyTheDead(cfg, before, verdicts[last], now);
      assert SignedFor(cfg, n, verdicts, now, s, last);
    }
  }

  /** An accusation the node has made outlasts its further probes. */
  lemma StaysAccused(cfg: Config, n: NodeState, dead: bool, now: int, q: Id, r: nat)
    requires GoodConfig(cfg) && NodeInv(cfg, n) && Accused(n, q, r, n.Me())
    ensures Accused(MonitorStep(cfg, n, dead, now), q, r, n.Me())
  {
    assert EntryAt(cfg, n, q);
  }

  /** A probed peer with a note that is found dead ends accused. */
  lemma ProbedIsAccused(cfg: Config, n: NodeState, q: Id, now: int)
    requires GoodConfig(cfg) && NodeInv(cfg, n) && IsProbed(cfg, n, q)
    ensures q in n.full && (n.full[q].note.Some? ==> Accused(MonitorStep(cfg, n, true, now), q, n.monitorRing, n.Me()))
  {
    ProbedExactly(cfg, n, q);
    DeadIsAccused(cfg, n, q, now);
  }

  lemma {:induction false} StaysAccusedAlong(cfg: Config, n: NodeState, verdicts: seq<bool>, now: int, q: Id, r: nat)
    requires GoodConfig(cfg) && NodeInv(cfg, n) && Accused(n, q, r, n.Me())
    ensures Accused(MonitorRound(cfg, n, verdicts, now), q, r, n.Me())
  {
    if verdicts != [] {
      var before := MonitorRound(cfg, n, verdicts[..|verdicts| - 1], now);
      StaysAccusedAlong(cfg, n, verdicts[..|verdicts| - 1], now, q, r);
      MonitorRoundKeeps(cfg, n, verdicts[..|verdicts| - 1], now);
      StaysAccused(cfg, before, verdicts[|verdicts| - 1], now, q, r);
    }
  }

  lemma {:induction false} RoundSplits(cfg: Config, n: NodeState, a: seq<bool>, b: seq<bool>, now: int)
    ensures MonitorRound(cfg, n, a + b, now) == MonitorRound(cfg, MonitorRound(cfg, n, a, now), b, now)
  {
    if b == [] {
      assert a + b == a;
    } else {
      assert (a + b)[..|a + b| - 1] == a + b[..|b| - 1];
      RoundSplits(cfg, n, a, b[..|b| - 1], now);
    }
  }

  lemma RoundProbes(cfg: Config, n: NodeState, dead: bool, now: int)
    ensures MonitorRound(cfg, n, [dead], now) == MonitorStep(cfg, n, dead, now)
  {
    assert [dead][..0] == [];
  }

  lemma DeadThenOthers(cfg: Config, n: NodeState, rest: seq<bool>, now: int, q: Id)
    requires GoodConfig(cfg) && NodeInv(cfg, n) && IsProbed(cfg, n, q)
    ensures q in n.full && (n.full[q].note.Some? ==>
      Accused(MonitorRound(cfg, n, [true] + rest, now), q, n.monitorRing, n.Me()))
  {
    ProbedIsAccused(cfg, n, q, now);
    if n.full[q].note.Some? {
      RoundSplits(cfg, n, [true], rest, now);
      RoundProbes(cfg, n, true, now);
      MonitorRoundKeeps(cfg, n, [true], now);
      StaysAccusedAlong(cfg, MonitorRound(cfg, n, [true], now), rest, now, q, n.monitorRing);
    }
  }

  /** A whole round accuses everybody it found dead: each peer with a note ends accused by the node on the ring where it
      was probed, and timed. */
  lemma RoundAccusesTheDead(cfg: Config, n: NodeState, verdicts: seq<bool>, now: int, q: Id, k: nat)
    requires GoodConfig(cfg) && NodeInv(cfg, n) && FoundDead(cfg, n, verdicts, now, q, k)
    ensures var at := MonitorRound(cfg, n, verdicts[..k], now);
      q in at.full && (at.full[q].note.Some? ==>
        Accused(MonitorRound(cfg, n, verdicts, now), q, at.monitorRing, n.Me()))
  {
    var first, rest := verdicts[..k], verdicts[k + 1..];
    assert verdicts == first + ([true] + rest);
    RoundSplits(cfg, n, first, [true] + rest, now);
    MonitorRoundKeeps(cfg, n, first, now);
    DeadThenOthers(cfg, MonitorRound(cfg, n, first, now), rest, now, q);
  }
}
