/** Accusations between live peers name the accused's ring predecessor: what keeps that true, and what may not. */
module Predecessors {
  import opened Types
  import opened Circle
  import opened PeerSpec
  import opened NodeSpec
  import opened Protocol
  import opened Invariant
  import opened SmallSteps
  import opened Steps

  /** `a` is on record as the accuser of the live peer `p` on ring `r`. */
  ghost predicate OnRecord(n: NodeState, r: nat, p: Id, a: Id) {
    && p in n.live && p in n.full && r in n.full[p].accusations
    && n.full[p].accusations[r].Some? && n.full[p].accusations[r].value.accuser == a
  }

  ghost predicate PredAt(cfg: Config, n: NodeState, r: nat, p: Id, a: Id) {
    OnRecord(n, r, p, a) && a in n.Members() ==> Precedes(cfg.hash, r, n.Members(), a, p)
  }

  /** Every accusation on ring `r` of a live peer by a live peer names the accused's current predecessor. */
  ghost predicate NamesPredecessors(cfg: Config, n: NodeState, r: nat) {
    forall p, a :: PredAt(cfg, n, r, p, a)
  }

  /** Departures keep it. */
  lemma LeavingKeeps(cfg: Config, n: NodeState, n': NodeState, r: nat)
    requires NamesPredecessors(cfg, n, r) && n'.live <= n.live && n'.full == n.full && n'.certificate == n.certificate
    ensures NamesPredecessors(cfg, n', r)
  {
    forall p, a ensures PredAt(cfg, n', r, p, a) {
      assert PredAt(cfg, n, r, p, a);
    }
  }

  /** So does every accusation the node accepts, */
  lemma AcceptingKeeps(cfg: Config, n: NodeState, m: AccusationMsg, now: int, r: nat)
    requires GoodConfig(cfg) && NodeInv(cfg, n) && NamesPredecessors(cfg, n, r)
    requires m.accused in n.full && m.signature.Some?
    ensures NamesPredecessors(cfg, EvalPeerAccusation(cfg, n, m, now).0, r)
  {
    var n' := EvalPeerAccusation(cfg, n, m, now).0;
    forall p, a ensures PredAt(cfg, n', r, p, a) {
      assert PredAt(cfg, n, r, p, a);
    }
  }

  /** Accusing a peer that the node directly precedes keeps it, */
  lemma AccusingKeeps(cfg: Config, n: NodeState, q: Id, ringNum: nat, now: int, r: nat)
    requires GoodConfig(cfg) && NodeInv(cfg, n) && NamesPredecessors(cfg, n, r) && q in n.full
    requires Precedes(cfg.hash, ringNum, n.Members(), n.Me(), q)
    ensures NamesPredecessors(cfg, AccuseSuccessor(n, q, ringNum, now), r)
  {
    var n' := AccuseSuccessor(n, q, ringNum, now);
    assert n'.live <= n.live && n'.Me() == n.Me();
    forall p, a ensures PredAt(cfg, n', r, p, a) {
      assert PredAt(cfg, n, r, p, a);
    }
  }

  /** and so every accusation the node makes does. */
  lemma MonitoringKeeps(cfg: Config, n: NodeState, dead: bool, now: int, r: nat)
    requires GoodConfig(cfg) && NodeInv(cfg, n) && NamesPredecessors(cfg, n, r)
    ensures NamesPredecessors(cfg, MonitorStep(cfg, n, dead, now), r)
  {
    var n1 := n.(monitorRing := NextRing(n.monitorRing, cfg.numRings));
    MonitorStepKeeps(cfg, n, false, now);
    LeavingKeeps(cfg, n, n1, r);
    var target := RingSuccessor(cfg, n, n.monitorRing);
    if dead && target.Some? && target.value in n.full {
      AccusingKeeps(cfg, n1, target.value, n.monitorRing, now, r);
    }
  }

  /** `q` would directly precede every live peer that it is on record as accusing on ring `r`. */
  ghost predicate PrecedesItsAccused(cfg: Config, n: NodeState, q: Id, r: nat) {
    forall p :: OnRecord(n, r, p, q) ==> Precedes(cfg.hash, r, n.Members() + {q}, q, p)
  }

  /** A join keeps it exactly when the newcomer directly precedes every live peer it is on record as accusing: the
      accusations it lands on are pruned, but its own from before it was expelled are not looked at. */
  lemma JoiningKeepsExactly(cfg: Config, n: NodeState, q: Id, r: nat)
    requires GoodConfig(cfg) && IsRing(r, cfg.numRings) && NamesPredecessors(cfg, n, r)
    requires q in n.full && q !in n.Members() && !IsAccused(n.full[q])
    ensures NamesPredecessors(cfg, AddLive(cfg, n, q), r) <==> PrecedesItsAccused(cfg, n, q, r)
  {
    var n' := AddLive(cfg, n, q);
    var more := n.Members() + {q};
    assert n'.Members() == more;
    if NamesPredecessors(cfg, n', r) {
      forall p | OnRecord(n, r, p, q) ensures Precedes(cfg.hash, r, more, q, p) {
        assert OnRecord(n', r, p, q);
        assert PredAt(cfg, n', r, p, q);
      }
    }
    if forall p :: OnRecord(n, r, p, q) ==> Precedes(cfg.hash, r, more, q, p) {
      forall p, a ensures PredAt(cfg, n', r, p, a) {
        if OnRecord(n', r, p, a) && a in more {
          assert OnRecord(n, r, p, a);
          if a != q {
            assert PredAt(cfg, n, r, p, a);
            NewcomerSplits(cfg.hash, r, n.Members(), a, p, q);
          }
        }
      }
    }
  }

  /** In particular any newcomer that is not on record as an accuser on the ring keeps it. */
  lemma JoiningKeeps(cfg: Config, n: NodeState, q: Id, r: nat)
    requires GoodConfig(cfg) && IsRing(r, cfg.numRings) && NamesPredecessors(cfg, n, r)
    requires q in n.full && q !in n.Members() && !IsAccused(n.full[q])
    requires forall p :: !OnRecord(n, r, p, q)
    ensures NamesPredecessors(cfg, AddLive(cfg, n, q), r)
  {
    JoiningKeepsExactly(cfg, n, q, r);
  }

  // ---------------------------------------------------------------------
  // Steps and runs
  // ---------------------------------------------------------------------

  /** Changing the note and clearing the slots of one peer. */
  lemma NotedKeeps(cfg: Config, n: NodeState, m: NoteMsg, r: nat)
    requires NodeInv(cfg, n) && Acceptable(cfg, n, m) && NamesPredecessors(cfg, n, r)
    ensures NamesPredecessors(cfg, Noted(n, m), r)
    ensures m.id !in n.live ==> forall p :: OnRecord(Noted(n, m), r, p, m.id) <==> OnRecord(n, r, p, m.id)
  {
    EvalNoteIsJoin(cfg, n, m);
    forall p, a ensures PredAt(cfg, Noted(n, m), r, p, a) {
      assert PredAt(cfg, n, r, p, a);
    }
  }

  /** Accepting a note keeps it exactly when it does not bring back a peer that stands elsewhere than before every peer
      it is on record as accusing. */
  lemma NoteKeeps(cfg: Config, n: NodeState, m: NoteMsg, r: nat)
    requires GoodConfig(cfg) && NodeInv(cfg, n) && NamesPredecessors(cfg, n, r) && IsRing(r, cfg.numRings)
    ensures NamesPredecessors(cfg, EvalNote(cfg, n, m).0, r) <==>
      (BringsBack(cfg, n, TakeNote(m)) ==> PrecedesItsAccused(cfg, n, m.id, r))
  {
    EvalNoteEffect(cfg, n, m);
    if Acceptable(cfg, n, m) {
      EvalNoteIsJoin(cfg, n, m);
      NotedKeeps(cfg, n, m, r);
      if m.id !in n.live {
        JoiningKeepsExactly(cfg, Noted(n, m), m.id, r);
      }
    }
  }

  /** A record that appears without accusations changes nothing. */
  lemma CertificateKeeps(cfg: Config, n: NodeState, c: Certificate, r: nat)
    requires NodeInv(cfg, n) && NamesPredecessors(cfg, n, r)
    ensures NamesPredecessors(cfg, EvalCertificate(cfg, n, c).0, r)
  {
    forall p, a ensures PredAt(cfg, EvalCertificate(cfg, n, c).0, r, p, a) {
      assert PredAt(cfg, n, r, p, a);
    }
  }

  /** Nor does a step that leaves records and live view alone. */
  lemma ElsewhereKeeps(cfg: Config, n: NodeState, n': NodeState, r: nat)
    requires NamesPredecessors(cfg, n, r) && n'.full == n.full && n'.live == n.live && n'.certificate == n.certificate
    ensures NamesPredecessors(cfg, n', r)
  {
    LeavingKeeps(cfg, n, n', r);
  }

  lemma MergingKeeps(cfg: Config, n: NodeState, m: AccusationMsg, now: int, r: nat)
    requires GoodConfig(cfg) && NodeInv(cfg, n) && NamesPredecessors(cfg, n, r)
    ensures NamesPredecessors(cfg, MergeAccusation(cfg, n, m, now), r)
  {
    var n' := MergeAccusation(cfg, n, m, now);
    if KnownParties(n, m) && m.signature.Some? && m.accused != n.Me() {
      AcceptingKeeps(cfg, n, m, now, r);
    } else {
      ElsewhereKeeps(cfg, n, n', r);
    }
  }

  /** No other small step breaks it. */
  lemma StepKeepsExactly(cfg: Config, n: NodeState, s: Small, r: nat)
    requires GoodConfig(cfg) && NodeInv(cfg, n) && NamesPredecessors(cfg, n, r) && IsRing(r, cfg.numRings)
    ensures NamesPredecessors(cfg, Do(cfg, n, s), r) <==>
      (BringsBack(cfg, n, s) ==> PrecedesItsAccused(cfg, n, s.note.id, r))
  {
    match s
    case TakeCertificate(c) => CertificateKeeps(cfg, n, c, r);
    case TakeNote(m) => NoteKeeps(cfg, n, m, r);
    case TakeAccusation(m, now) => MergingKeeps(cfg, n, m, now, r);
    case Probe(dead, now) => MonitoringKeeps(cfg, n, dead, now, r);
    case Expel(now) => LeavingKeeps(cfg, n, Do(cfg, n, s), r);
    case Issue(hosts) => ElsewhereKeeps(cfg, n, Do(cfg, n, s), r);
  }

  /** Accusations on ring `r` between live peers name predecessors after every small step. */
  ghost predicate NamesPredecessorsAlong(cfg: Config, n: NodeState, ss: seq<Small>, r: nat)
    requires cfg.numRings >= 1
  {
    NamesPredecessors(cfg, DoAll(cfg, n, ss), r) && (ss == [] || NamesPredecessorsAlong(cfg, n, ss[..|ss| - 1], r))
  }

  /** Whoever a note among the small steps brings back stands right before every live peer it is on record as
      accusing. */
  ghost predicate ReturnsInPlace(cfg: Config, n: NodeState, ss: seq<Small>, r: nat)
    requires cfg.numRings >= 1
  {
    ss == [] || (
      var before := DoAll(cfg, n, ss[..|ss| - 1]);
      var s := ss[|ss| - 1];
      && ReturnsInPlace(cfg, n, ss[..|ss| - 1], r)
      && (BringsBack(cfg, before, s) ==> PrecedesItsAccused(cfg, before, s.note.id, r)))
  }

  /** Over whole runs: accusations between live peers name predecessors all along exactly when every peer that a note
      brings back stands right before the live peers it is on record as accusing. */
  lemma {:induction false} RunsKeepExactly(cfg: Config, n: NodeState, ss: seq<Small>, r: nat)
    requires GoodConfig(cfg) && NodeInv(cfg, n) && NamesPredecessors(cfg, n, r) && IsRing(r, cfg.numRings)
    ensures NamesPredecessorsAlong(cfg, n, ss, r) <==> ReturnsInPlace(cfg, n, ss, r)
  {
    if ss != [] {
      var rest := ss[..|ss| - 1];
      RunsKeepExactly(cfg, n, rest, r);
      DoAllKeeps(cfg, n, rest);
      if NamesPredecessorsAlong(cfg, n, rest, r) {
        StepKeepsExactly(cfg, DoAll(cfg, n, rest), ss[|ss| - 1], r);
      }
    }
  }

  /** The same for the events of a run. */
  lemma EventsKeep(cfg: Config, n: NodeState, events: seq<Event>, r: nat)
    requires GoodConfig(cfg) && NodeInv(cfg, n) && NamesPredecessors(cfg, n, r) && IsRing(r, cfg.numRings)
    requires ReturnsInPlace(cfg, n, RunParts(cfg, n, events), r)
    ensures NamesPredecessors(cfg, Run(cfg, n, events), r)
  {
    RunsKeepExactly(cfg, n, RunParts(cfg, n, events), r);
    RunIs(cfg, n, events);
  }

  /** With the same membership at both nodes, the target a node monitors lets that node accuse it everywhere. */
  lemma MonitorTargetIsValid(cfg: Config, n: NodeState, other: NodeState, r: nat)
    requires GoodConfig(cfg) && other.Members() == n.Members() && RingSuccessor(cfg, n, r).Some?
    ensures ValidAccuser(cfg, other, RingSuccessor(cfg, n, r).value, n.Me(), r)
  {
    var q := RingSuccessor(cfg, n, r).value;
    assert IsTarget(cfg, n, r, q);
  }
}
