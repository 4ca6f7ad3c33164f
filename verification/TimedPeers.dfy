/** Whether a timed peer is still accused: a join may clear an accusation but not the timer it started. */
module TimedPeers {
  import opened Types
  import opened Circle
  import opened PeerSpec
  import opened NodeSpec
  import opened Protocol
  import opened Invariant
  import opened SmallSteps

  /** Every timed peer is accused. */
  ghost predicate TimedAreAccused(n: NodeState) {
    forall p :: p in n.timers && p in n.full ==> IsAccused(n.full[p])
  }

  /** The newcomer lands directly between the accused and its accuser of ring `r`. */
  ghost predicate LandsBetween(cfg: Config, n: NodeState, q: Id, p: Id, r: nat) {
    p in n.full && r in n.full[p].accusations && OutOfDate(cfg, n.Members(), q, p, r, n.full[p].accusations[r])
  }

  /** No member and not the newcomer `q` stands strictly between `a` and `b` on ring `r`. */
  ghost predicate Beside(cfg: Config, n: NodeState, q: Id, r: nat, a: Id, b: Id) {
    forall x :: x in n.live || x == n.Me() || x == q ==> !Inside(cfg.hash(r, a), cfg.hash(r, b), cfg.hash(r, x))
  }

  /** Exactly which accusations a join clears: on an existing ring, those of a member by a member with the newcomer
      standing directly between the two. All other slots, and everything else on record, stay. */
  lemma JoinClearsExactly(cfg: Config, n: NodeState, q: Id, p: Id, r: nat)
    requires q in n.full && q !in n.live && q != n.Me() && p in n.full && r in n.full[p].accusations
    ensures var n' := AddLive(cfg, n, q);
      var slot := n.full[p].accusations[r];
      && p in n'.full && n'.full[p].note == n.full[p].note && n'.full[p].certificate == n.full[p].certificate
      && n'.full[p].accusations.Keys == n.full[p].accusations.Keys
      && n'.full[p].accusations[r] ==
           if slot.Some? && 1 <= r <= cfg.numRings && (p in n.live || p == n.Me())
              && (slot.value.accuser in n.live || slot.value.accuser == n.Me())
              && Beside(cfg, n, q, r, slot.value.accuser, q) && Beside(cfg, n, q, r, q, p)
           then None else slot
  {
  }

  /** Every timed peer has an accusation that the newcomer does not land in the middle of. */
  ghost predicate LeavesAccused(cfg: Config, n: NodeState, q: Id)
    requires n.timers.Keys <= n.full.Keys
  {
    forall p :: p in n.timers ==>
      exists r :: r in n.full[p].accusations && n.full[p].accusations[r].Some? && !LandsBetween(cfg, n, q, p, r)
  }

  /** A join leaves every timed peer accused exactly when each of them has an accusation that the newcomer does not land
      in the middle of. */
  lemma JoinKeepsTimedAccused(cfg: Config, n: NodeState, q: Id)
    requires n.timers.Keys <= n.full.Keys && TimedAreAccused(n) && q in n.full && q !in n.live
    ensures TimedAreAccused(AddLive(cfg, n, q)) <==> LeavesAccused(cfg, n, q)
  {
    var n' := AddLive(cfg, n, q);
    forall p | p in n.timers
      ensures IsAccused(n'.full[p]) <==>
        exists r :: r in n.full[p].accusations && n.full[p].accusations[r].Some? && !LandsBetween(cfg, n, q, p, r)
    {
      forall r | r in n.full[p].accusations
        ensures n'.full[p].accusations[r].Some? <==>
          n.full[p].accusations[r].Some? && !LandsBetween(cfg, n, q, p, r)
      {
      }
    }
  }

  /** The condition does not look at the newcomer's own record. */
  lemma NotedLeavesAccused(cfg: Config, n: NodeState, m: NoteMsg)
    requires NodeInv(cfg, n) && BringsBack(cfg, n, TakeNote(m)) && Noted(n, m).timers == n.timers
    ensures LeavesAccused(cfg, Noted(n, m), m.id) <==> LeavesAccused(cfg, n, m.id)
  {
    forall p | p in n.timers
      ensures Noted(n, m).full[p] == n.full[p]
      ensures forall r :: LandsBetween(cfg, Noted(n, m), m.id, p, r) <==> LandsBetween(cfg, n, m.id, p, r)
    {
      assert EntryAt(cfg, n, p);
    }
  }

  /** Accepting a note leaves every timed peer accused exactly when it does not bring its sender back in the middle of
      the only accusations of some timed peer. */
  lemma NoteKeepsTimedAccused(cfg: Config, n: NodeState, m: NoteMsg)
    requires NodeInv(cfg, n) && TimedAreAccused(n)
    ensures TimedAreAccused(EvalNote(cfg, n, m).0) <==>
      (BringsBack(cfg, n, TakeNote(m)) ==> LeavesAccused(cfg, n, m.id))
  {
    EvalNoteEffect(cfg, n, m);
    if Acceptable(cfg, n, m) {
      EvalNoteIsJoin(cfg, n, m);
      var n1 := Noted(n, m);
      if m.id !in n.live {
        assert EntryAt(cfg, n, m.id);
        JoinKeepsTimedAccused(cfg, n1, m.id);
        NotedLeavesAccused(cfg, n, m);
      }
    }
  }

  lemma AccusationKeepsTimedAccused(cfg: Config, n: NodeState, m: AccusationMsg, now: int)
    requires GoodConfig(cfg) && NodeInv(cfg, n) && TimedAreAccused(n)
    ensures TimedAreAccused(MergeAccusation(cfg, n, m, now))
  {
    var n' := MergeAccusation(cfg, n, m, now);
    if KnownParties(n, m) && m.signature.Some? && m.accused != n.Me() {
      var p := n.full[m.accused];
      var outcome := EvalPeerAccusation(cfg, n, m, now).1;
      if outcome == Ok || outcome == AccusationAlreadyExists {
        assert m.ringNum in n'.full[m.accused].accusations && n'.full[m.accused].accusations[m.ringNum].Some?;
      }
    }
  }

  lemma AccusingKeepsTimedAccused(n: NodeState, q: Id, r: nat, now: int)
    requires TimedAreAccused(n) && q in n.full
    ensures TimedAreAccused(AccuseSuccessor(n, q, r, now))
  {
    var n' := AccuseSuccessor(n, q, r, now);
    if n.full[q].note.Some? && r in n.full[q].accusations {
      assert n'.full[q].accusations[r].Some?;
    }
  }

  lemma ProbeKeepsTimedAccused(cfg: Config, n: NodeState, dead: bool, now: int)
    requires GoodConfig(cfg) && NodeInv(cfg, n) && TimedAreAccused(n)
    ensures TimedAreAccused(MonitorStep(cfg, n, dead, now))
  {
    var n1 := n.(monitorRing := NextRing(n.monitorRing, cfg.numRings));
    var target := RingSuccessor(cfg, n, n.monitorRing);
    if dead && target.Some? && target.value in n.full {
      AccusingKeepsTimedAccused(n1, target.value, n.monitorRing, now);
    }
  }

  /** No other small step leaves a timed peer unaccused. */
  lemma StepKeepsTimedAccused(cfg: Config, n: NodeState, s: Small)
    requires GoodConfig(cfg) && NodeInv(cfg, n) && TimedAreAccused(n)
    ensures TimedAreAccused(Do(cfg, n, s)) <==> (BringsBack(cfg, n, s) ==> LeavesAccused(cfg, n, s.note.id))
  {
    match s
    case TakeNote(m) => NoteKeepsTimedAccused(cfg, n, m);
    case TakeAccusation(m, now) => AccusationKeepsTimedAccused(cfg, n, m, now);
    case Probe(dead, now) => ProbeKeepsTimedAccused(cfg, n, dead, now);
    case _ =>
  }

  /** Every timed peer is accused after every small step. */
  ghost predicate TimedAreAccusedAlong(cfg: Config, n: NodeState, ss: seq<Small>)
    requires cfg.numRings >= 1
  {
    TimedAreAccused(DoAll(cfg, n, ss)) && (ss == [] || TimedAreAccusedAlong(cfg, n, ss[..|ss| - 1]))
  }

  /** No note among the small steps brings its sender back in the middle of the only accusations of a timed peer. */
  ghost predicate ReturnsLeaveAccused(cfg: Config, n: NodeState, ss: seq<Small>)
    requires cfg.numRings >= 1
  {
    ss == [] || (
      var before := DoAll(cfg, n, ss[..|ss| - 1]);
      var s := ss[|ss| - 1];
      && ReturnsLeaveAccused(cfg, n, ss[..|ss| - 1])
      && (BringsBack(cfg, before, s) ==>
           before.timers.Keys <= before.full.Keys && LeavesAccused(cfg, before, s.note.id)))
  }

  /** Over whole runs: every timed peer stays accused all along exactly when no note of the run brings its sender back
      in the middle of the only accusations of a timed peer. */
  lemma {:induction false} TimedAccusedRuns(cfg: Config, n: NodeState, ss: seq<Small>)
    requires GoodConfig(cfg) && NodeInv(cfg, n) && TimedAreAccused(n)
    ensures TimedAreAccusedAlong(cfg, n, ss) <==> ReturnsLeaveAccused(cfg, n, ss)
  {
    if ss != [] {
      var rest := ss[..|ss| - 1];
      TimedAccusedRuns(cfg, n, rest);
      DoAllKeeps(cfg, n, rest);
      if TimedAreAccusedAlong(cfg, n, rest) {
        StepKeepsTimedAccused(cfg, DoAll(cfg, n, rest), ss[|ss| - 1]);
      }
    }
  }

  /** The same for the events of a run. */
  lemma TimedAccusedEvents(cfg: Config, n: NodeState, events: seq<Event>)
    requires GoodConfig(cfg) && NodeInv(cfg, n) && TimedAreAccused(n)
    requires ReturnsLeaveAccused(cfg, n, RunParts(cfg, n, events))
    ensures TimedAreAccused(Run(cfg, n, events))
  {
    TimedAccusedRuns(cfg, n, RunParts(cfg, n, events));
    RunIs(cfg, n, events);
  }
}
