/** Timers: how long they run, whom they expel, and what brings an expelled peer back. */
module Expulsion {
  import opened Types
  import opened PeerSpec
  import opened NodeSpec
  import opened Protocol
  import opened Invariant
  import opened Steps
  import opened SmallSteps

  /** A request to time a peer. */
  datatype TimerCall = TimerCall(accused: Id, note: Option<Note>, observer: Id, now: int)

  function StartTimers(n: NodeState, calls: seq<TimerCall>): NodeState {
    if calls == [] then n
    else
      var c := calls[|calls| - 1];
      StartTimer(StartTimers(n, calls[..|calls| - 1]), c.accused, c.note, c.observer, c.now)
  }

  /** No sequence of calls moves the start of a running timer, and none touches anything but the timers. */
  lemma {:induction false} TimersKeepTheirStart(n: NodeState, calls: seq<TimerCall>, p: Id)
    requires p in n.timers
    ensures var n' := StartTimers(n, calls);
      && p in n'.timers && n'.timers[p].timeStamp == n.timers[p].timeStamp
      && n.timers[p].lastNote.epoch <= n'.timers[p].lastNote.epoch
      && n' == n.(timers := n'.timers)
  {
    if calls != [] {
      TimersKeepTheirStart(n, calls[..|calls| - 1], p);
    }
  }

  /** What one call does: without a note of the accused nothing; else a timer that is not running starts now, and one
      that is running moves to a newer note and keeps its start. */
  lemma StartTimerExactly(n: NodeState, accused: Id, note: Option<Note>, observer: Id, now: int)
    ensures var n' := StartTimer(n, accused, note, observer, now);
      && n' == n.(timers := n'.timers) && (forall p :: p != accused ==> TimerOf(n', p) == TimerOf(n, p))
      && TimerOf(n', accused) ==
           if note.None? || note.value.id != accused then TimerOf(n, accused)
           else if accused !in n.timers then Some(Timer(observer, now, note.value, accused))
           else if n.timers[accused].lastNote.epoch >= note.value.epoch then Some(n.timers[accused])
           else Some(Timer(observer, n.timers[accused].timeStamp, note.value, accused))
  {
  }

  // ---------------------------------------------------------------------
  // No answer, no place
  // ---------------------------------------------------------------------

  /** A peer is on its way out: it has left the live view, or its timer, started at `since`, is running. */
  ghost predicate Pending(n: NodeState, p: Id, since: int) {
    p in n.full && (p in n.live ==> p in n.timers && n.timers[p].timeStamp == since)
  }

  /** The epoch stored for a peer has grown: a newer note of it was accepted. */
  ghost predicate Answered(n: NodeState, n': NodeState, p: Id) {
    p in n.full && p in n'.full && Epoch(n.full[p]) < Epoch(n'.full[p])
  }

  lemma PendingAccusation(cfg: Config, n: NodeState, m: AccusationMsg, now: int, p: Id, since: int)
    requires GoodConfig(cfg) && Pending(n, p, since)
    ensures Pending(MergeAccusation(cfg, n, m, now), p, since)
  {
  }

  lemma PendingProbe(cfg: Config, n: NodeState, dead: bool, now: int, p: Id, since: int)
    requires GoodConfig(cfg) && Pending(n, p, since)
    ensures Pending(MonitorStep(cfg, n, dead, now), p, since)
  {
  }

  /** Nothing but a newer note takes a peer off its way out. */
  lemma PendingStep(cfg: Config, n: NodeState, s: Small, p: Id, since: int)
    requires GoodConfig(cfg) && NodeInv(cfg, n) && Pending(n, p, since)
    ensures Pending(Do(cfg, n, s), p, since) || Answered(n, Do(cfg, n, s), p)
  {
    match s
    case TakeNote(m) => EvalNoteEffect(cfg, n, m);
    case TakeAccusation(m, now) => PendingAccusation(cfg, n, m, now, p, since);
    case Probe(dead, now) => PendingProbe(cfg, n, dead, now, p, since);
    case _ =>
  }

  lemma {:induction false} PendingSteps(cfg: Config, n: NodeState, ss: seq<Small>, p: Id, since: int)
    requires GoodConfig(cfg) && NodeInv(cfg, n) && Pending(n, p, since)
    ensures Pending(DoAll(cfg, n, ss), p, since) || Answered(n, DoAll(cfg, n, ss), p)
  {
    if ss != [] {
      var before := DoAll(cfg, n, ss[..|ss| - 1]);
      PendingSteps(cfg, n, ss[..|ss| - 1], p, since);
      DoAllKeeps(cfg, n, ss[..|ss| - 1]);
      DoKeeps(cfg, before, ss[|ss| - 1]);
      assert PeerEvolves(n, before, p) && PeerEvolves(before, DoAll(cfg, n, ss), p);
      if Pending(before, p, since) {
        PendingStep(cfg, before, ss[|ss| - 1], p, since);
      }
    }
  }

  /** A peer that does not answer in time is expelled. From the moment its timer started, whatever else arrives, is
      probed, accused, joined or expelled: unless a newer note of the peer has been accepted, the first timeout check
      past the limit leaves it out of the live view and of every ring. */
  lemma SilentIsExpelled(cfg: Config, n: NodeState, p: Id, events: seq<Event>, now: int)
    requires GoodConfig(cfg) && NodeInv(cfg, n) && p in n.full && p in n.timers
    requires now - n.timers[p].timeStamp > cfg.removalTimeout
    ensures var later := Run(cfg, n, events);
      p in later.full && (Answered(n, later, p) || p !in CheckTimeouts(cfg, later, now).Members())
  {
    RunIs(cfg, n, events);
    RunKeeps(cfg, n, events);
    assert PeerEvolves(n, Run(cfg, n, events), p);
    PendingSteps(cfg, n, RunParts(cfg, n, events), p, n.timers[p].timeStamp);
  }

  /** A peer expelled by a timeout is out of the live view and of every ring, and stays out over any continuation until
      a note strictly newer than the one stored at expulsion has been accepted. */
  lemma ExpelledStaysOut(cfg: Config, n: NodeState, now: int, events: seq<Event>, p: Id)
    requires GoodConfig(cfg) && NodeInv(cfg, n)
    requires p in n.timers && now - n.timers[p].timeStamp > cfg.removalTimeout
    ensures var out := CheckTimeouts(cfg, n, now);
      var later := Run(cfg, out, events);
      && p !in out.Members() && p !in out.timers
      && p in n.full && n.full[p].note.Some? && p in later.full
      && (p in later.Members() ==> Epoch(n.full[p]) < Epoch(later.full[p]))
  {
    assert EntryAt(cfg, n, p);
    var out := CheckTimeouts(cfg, n, now);
    CheckTimeoutsKeeps(cfg, n, now);
    RunKeeps(cfg, out, events);
    assert PeerEvolves(out, Run(cfg, out, events), p);
  }

  /** What a timeout check does to a consistent node. A timed peer leaves the live view, and loses its timer, exactly
      when its timer has run for longer than the limit. Everybody else stays as they were. */
  lemma ExpelsExactly(cfg: Config, n: NodeState, now: int)
    requires NodeInv(cfg, n)
    ensures var out := CheckTimeouts(cfg, n, now);
      && (forall p :: p in n.timers ==>
           && p in n.live
           && (p !in out.live <==> now - n.timers[p].timeStamp > cfg.removalTimeout)
           && (p !in out.timers <==> now - n.timers[p].timeStamp > cfg.removalTimeout)
           && (p in out.timers ==> out.timers[p] == n.timers[p]))
      && (forall p :: p !in n.timers ==> p !in out.timers && (p in out.live <==> p in n.live))
      && out == n.(live := out.live, timers := out.timers)
  {
    forall p | p in n.timers ensures p in n.live {
      assert EntryAt(cfg, n, p);
    }
  }

  // ---------------------------------------------------------------------
  // When timers start, and nobody is expelled early
  // ---------------------------------------------------------------------

  /** The timer that a small step starts for `p`: it runs from the time of the step, for the note on record, and names
      who accused the peer. */
  ghost predicate StartsNow(n: NodeState, n': NodeState, s: Small, p: Id) {
    && p in n'.timers && p in n.live && p in n.full && n.full[p].note.Some? && n'.full.Keys == n.full.Keys
    && match s
       case TakeAccusation(m, now) => m.accused == p && n'.timers[p] == Timer(m.accuser, now, n.full[p].note.value, p)
       case Probe(dead, now) => dead && n'.timers[p] == Timer(n.Me(), now, n.full[p].note.value, p)
       case _ => false
  }

  lemma AccusationTimers(cfg: Config, n: NodeState, m: AccusationMsg, now: int, p: Id)
    requires GoodConfig(cfg) && NodeInv(cfg, n)
    ensures var n' := MergeAccusation(cfg, n, m, now);
      && (p in n.timers ==> p in n'.timers && n'.timers[p] == n.timers[p])
      && (p in n'.timers && p !in n.timers ==> StartsNow(n, n', TakeAccusation(m, now), p))
  {
  }

  lemma ProbeTimers(cfg: Config, n: NodeState, dead: bool, now: int, p: Id)
    requires GoodConfig(cfg) && NodeInv(cfg, n)
    ensures var n' := MonitorStep(cfg, n, dead, now);
      && (p in n.timers ==> p in n'.timers && n'.timers[p] == n.timers[p])
      && (p in n'.timers && p !in n.timers ==> StartsNow(n, n', Probe(dead, now), p))
  {
  }

  /** In every small step: a running timer is not touched, unless it is removed; and a timer that appears starts now. */
  lemma TimersExactly(cfg: Config, n: NodeState, s: Small, p: Id)
    requires GoodConfig(cfg) && NodeInv(cfg, n)
    ensures var n' := Do(cfg, n, s);
      && (p in n.timers && p in n'.timers ==> n'.timers[p] == n.timers[p])
      && (p in n'.timers && p !in n.timers ==> StartsNow(n, n', s, p))
      && (p in n.timers && p !in n'.timers ==>
           match s
           case Expel(now) => now - n.timers[p].timeStamp > cfg.removalTimeout
           case TakeNote(m) => m.id == p && Answered(n, n', p)
           case _ => false)
  {
    match s
    case TakeNote(m) => EvalNoteEffect(cfg, n, m);
    case TakeAccusation(m, now) => AccusationTimers(cfg, n, m, now, p);
    case Probe(dead, now) => ProbeTimers(cfg, n, dead, now, p);
    case _ =>
  }

  /** The peer is live and timed since `since`. */
  ghost predicate TimedSince(n: NodeState, p: Id, since: int) {
    p in n.full && p in n.live && p in n.timers && n.timers[p].timeStamp == since
  }

  /** No timeout check among the small steps comes later than the limit allows for a timer started at `since`. */
  predicate ChecksInTime(cfg: Config, ss: seq<Small>, since: int) {
    forall i :: 0 <= i < |ss| && ss[i].Expel? ==> ss[i].now - since <= cfg.removalTimeout
  }

  lemma StaysTimed(cfg: Config, n: NodeState, s: Small, p: Id, since: int)
    requires GoodConfig(cfg) && NodeInv(cfg, n) && TimedSince(n, p, since)
    requires s.Expel? ==> s.now - since <= cfg.removalTimeout
    ensures TimedSince(Do(cfg, n, s), p, since) || Answered(n, Do(cfg, n, s), p)
  {
    TimersExactly(cfg, n, s, p);
    DoKeeps(cfg, n, s);
    assert EntryAt(cfg, n, p) && EntryAt(cfg, Do(cfg, n, s), p) && PeerEvolves(n, Do(cfg, n, s), p);
  }

  lemma {:induction false} StaysTimedAlong(cfg: Config, n: NodeState, ss: seq<Small>, p: Id, since: int)
    requires GoodConfig(cfg) && NodeInv(cfg, n) && TimedSince(n, p, since) && ChecksInTime(cfg, ss, since)
    ensures TimedSince(DoAll(cfg, n, ss), p, since) || Answered(n, DoAll(cfg, n, ss), p)
  {
    if ss != [] {
      var rest := ss[..|ss| - 1];
      var before := DoAll(cfg, n, rest);
      assert ChecksInTime(cfg, rest, since) by {
        assert forall i :: 0 <= i < |rest| ==> rest[i] == ss[i];
      }
      StaysTimedAlong(cfg, n, rest, p, since);
      DoAllKeeps(cfg, n, rest);
      DoKeeps(cfg, before, ss[|ss| - 1]);
      assert PeerEvolves(n, before, p) && PeerEvolves(before, DoAll(cfg, n, ss), p);
      if TimedSince(before, p, since) {
        StaysTimed(cfg, before, ss[|ss| - 1], p, since);
      }
    }
  }

  /** No timeout check among the events comes later than the limit allows for a timer started at `since`. */
  predicate EventsInTime(cfg: Config, events: seq<Event>, since: int) {
    forall i :: 0 <= i < |events| && events[i].DoTimeouts? ==> events[i].now - since <= cfg.removalTimeout
  }

  lemma {:induction false} EventsCheckInTime(cfg: Config, n: NodeState, events: seq<Event>, since: int)
    requires cfg.numRings >= 1 && EventsInTime(cfg, events, since)
    ensures ChecksInTime(cfg, RunParts(cfg, n, events), since)
  {
    if events != [] {
      var rest := events[..|events| - 1];
      assert forall i :: 0 <= i < |rest| ==> rest[i] == events[i];
      EventsCheckInTime(cfg, n, rest, since);
      assert ChecksInTime(cfg, Parts(cfg, Run(cfg, n, rest), events[|events| - 1]), since);
    }
  }

  /** Nobody is expelled early. As long as no timeout check comes later than the limit after its timer started, a timed
      peer is live and timed since then, whatever else happens, unless it has answered. */
  lemma NobodyExpelledEarly(cfg: Config, n: NodeState, p: Id, events: seq<Event>)
    requires GoodConfig(cfg) && NodeInv(cfg, n) && p in n.timers && EventsInTime(cfg, events, n.timers[p].timeStamp)
    ensures var later := Run(cfg, n, events);
      Answered(n, later, p) || TimedSince(later, p, n.timers[p].timeStamp)
  {
    assert EntryAt(cfg, n, p);
    RunIs(cfg, n, events);
    EventsCheckInTime(cfg, n, events, n.timers[p].timeStamp);
    StaysTimedAlong(cfg, n, RunParts(cfg, n, events), p, n.timers[p].timeStamp);
  }

  /** When an accepted note stops a peer's timer: exactly when the peer was accused. */
  lemma NoteStopsTimer(cfg: Config, n: NodeState, m: NoteMsg)
    requires NodeInv(cfg, n) && Acceptable(cfg, n, m) && m.id in n.timers
    ensures m.id !in EvalNote(cfg, n, m).0.timers <==> IsAccused(n.full[m.id])
  {
    EvalNoteEffect(cfg, n, m);
  }
}
