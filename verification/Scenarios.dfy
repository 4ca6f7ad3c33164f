/** Runs in which two natural expectations fail: that a timed peer is accused, and that an accusation between live peers
    names the accused's predecessor. */
module Scenarios {
  import opened Types
  import opened Mask
  import opened OwnNote
  import opened Circle
  import opened PeerSpec
  import opened NodeSpec
  import opened Protocol
  import opened Invariant
  import opened Steps
  import Predecessors
  import Rebuttal
  import TimedPeers

  // ---------------------------------------------------------------------
  // One ring, and peers that introduce themselves
  // ---------------------------------------------------------------------

  function NoteAt(id: Id, epoch: nat): Note {
    SelfNote(id, epoch, Block(0, 1))
  }

  /** A peer sends its note. */
  function Hello(c: Certificate, epoch: nat): Event {
    OnRequest(Some(c), State(map[], NoteAt(c.id, epoch).ToMsg()))
  }

  /** What is known about a peer that has sent a note and is not accused. */
  function Known(c: Certificate, epoch: nat): PeerState {
    PeerState(c, Some(NoteAt(c.id, epoch)), map[1 := None])
  }

  ghost predicate Welcome(cfg: Config, n: NodeState, c: Certificate) {
    Trusted(cfg, c) && Usable(c) && c.id != n.Me() && c.id !in n.full
  }

  lemma OneRing(mask: nat)
    requires mask == Block(0, 1)
    ensures ValidMask(mask, 1) && !IsRingDisabled(mask, 1, 1) && RingNums(1) == {1} && NextRing(1, 1) == 1
  {
    FreshIsSound(1);
    ConfinedMask(mask, 1);
    BlockBits(0, 1, 0);
    NextRingInRange(1, 1);
  }

  /** The first note of a peer makes it live. */
  lemma FirstNote(cfg: Config, n: NodeState, c: Certificate, epoch: nat)
    requires cfg.numRings == 1 && c.id in n.full && n.full[c.id] == PeerState(c, None, map[1 := None])
    ensures EvalNote(cfg, n, NoteAt(c.id, epoch).ToMsg()).0 == AddLive(cfg, n.Put(c.id, Known(c, epoch)), c.id)
  {
    OneRing(Block(0, 1));
  }

  /** A peer that nobody knew joins with its first note. */
  lemma NewcomerJoins(cfg: Config, n: NodeState, c: Certificate, epoch: nat)
    requires GoodConfig(cfg) && cfg.numRings == 1 && Welcome(cfg, n, c)
    ensures Apply(cfg, n, Hello(c, epoch)) == AddLive(cfg, n.Put(c.id, Known(c, epoch)), c.id)
  {
    var (n1, outcome) := EvalCertificate(cfg, n, c);
    assert RingNums(1) == {1};
    assert n1.full[c.id].accusations == map[1 := None];
    assert outcome == Ok && n1 == n.Put(c.id, PeerState(c, None, map[1 := None]));
    FirstNote(cfg, n1, c, epoch);
    assert n1.Put(c.id, Known(c, epoch)) == n.Put(c.id, Known(c, epoch));
  }

  lemma NewcomerJoinsUnaccused(cfg: Config, n: NodeState, c: Certificate, epoch: nat)
    requires GoodConfig(cfg) && cfg.numRings == 1 && Welcome(cfg, n, c) && Unaccused(n)
    ensures var n' := Apply(cfg, n, Hello(c, epoch));
      n' == n.(full := n.full[c.id := Known(c, epoch)], live := n.live + {c.id}) && Unaccused(n')
  {
    NewcomerJoins(cfg, n, c, epoch);
    JoinUnaccused(cfg, n.Put(c.id, Known(c, epoch)), c.id);
  }

  lemma Runs(cfg: Config, n: NodeState, events: seq<Event>, e: Event)
    requires cfg.numRings >= 1
    ensures Run(cfg, n, events + [e]) == Apply(cfg, Run(cfg, n, events), e)
  {
    assert (events + [e])[..|events|] == events;
  }

  lemma RunPair(cfg: Config, n: NodeState, e: Event, f: Event)
    requires cfg.numRings >= 1
    ensures Run(cfg, n, [e, f]) == Apply(cfg, Apply(cfg, n, e), f)
  {
    assert [e, f][..1] == [e] && [e][..0] == [];
    assert Run(cfg, n, []) == n;
  }

  lemma {:induction false} RunAppend(cfg: Config, n: NodeState, a: seq<Event>, b: seq<Event>)
    requires cfg.numRings >= 1
    ensures Run(cfg, n, a + b) == Run(cfg, Run(cfg, n, a), b)
  {
    if b == [] {
      assert a + b == a;
    } else {
      assert (a + b)[..|a + b| - 1] == a + b[..|b| - 1];
      RunAppend(cfg, n, a, b[..|b| - 1]);
    }
  }

  lemma RunOk(cfg: Config, me: Certificate, events: seq<Event>)
    requires GoodConfig(cfg)
    ensures NodeInv(cfg, Run(cfg, NewNode(cfg, me, []), events))
  {
    NewNodeOk(cfg, me, []);
    RunKeeps(cfg, NewNode(cfg, me, []), events);
  }

  /** The record of a peer on which somebody's accusation is stored. */
  function KnownAccused(c: Certificate, epoch: nat, accuser: Id): PeerState {
    Known(c, epoch).(accusations := map[1 := Some(OwnAccusation(NoteAt(c.id, epoch), accuser, 1))])
  }

  /** The successor is found dead. */
  lemma SuccessorAccused(cfg: Config, n: NodeState, c: Certificate, t: int)
    requires GoodConfig(cfg) && cfg.numRings == 1 && n.monitorRing == 1 && c.id != n.Me()
    requires c.id in n.live && c.id in n.full && n.full[c.id] == Known(c, 1) && c.id !in n.timers
    requires Precedes(cfg.hash, 1, n.Members(), n.Me(), c.id)
    ensures var n' := Apply(cfg, n, DoMonitor([true], t));
      && n'.full == n.full[c.id := KnownAccused(c, 1, n.Me())] && n'.live == n.live && n'.certificate == n.certificate
      && n'.timers == n.timers[c.id := Timer(n.Me(), t, NoteAt(c.id, 1), c.id)]
  {
    OneRing(Block(0, 1));
    assert IsTarget(cfg, n, 1, c.id);
    forall q | IsTarget(cfg, n, 1, q) ensures q == c.id {
      NeighbourUnique(cfg.hash, 1, n.Members(), n.Me(), q, c.id);
    }
    assert RingSuccessor(cfg, n, 1) == Some(c.id);
    var slot := Some(OwnAccusation(NoteAt(c.id, 1), n.Me(), 1));
    assert Known(c, 1).accusations[1 := slot] == map[1 := slot];
    assert [true][..0] == [];
    assert MonitorRound(cfg, n, [true], t) == MonitorStep(cfg, n, true, t);
  }

  // ---------------------------------------------------------------------
  // Cleared, but expelled
  // ---------------------------------------------------------------------

  /** A peer is accused, a newcomer lands between it and its accuser. */
  function LandingRun(p: Certificate, q: Certificate, t: int): seq<Event> {
    [Hello(p, 1), DoMonitor([true], t)] + [Hello(q, 1)]
  }

  /** The state before the newcomer of the run arrives. */
  lemma AccusedAlone(cfg: Config, me: Certificate, p: Certificate, t: int)
    requires GoodConfig(cfg) && cfg.numRings == 1 && Trusted(cfg, p) && Usable(p) && p.id != me.id
    ensures var n := Run(cfg, NewNode(cfg, me, []), [Hello(p, 1), DoMonitor([true], t)]);
      && n.certificate == me && n.full == map[p.id := KnownAccused(p, 1, me.id)] && n.live == {p.id}
      && n.timers == map[p.id := Timer(me.id, t, NoteAt(p.id, 1), p.id)]
  {
    var n0 := NewNode(cfg, me, []);
    assert n0 == NewView(cfg, me);
    RunPair(cfg, n0, Hello(p, 1), DoMonitor([true], t));
    NewcomerJoinsUnaccused(cfg, n0, p, 1);
    SuccessorAccused(cfg, Apply(cfg, n0, Hello(p, 1)), p, t);
  }

  /** The newcomer lands between the accused and the node that accused it. */
  lemma LandingClears(cfg: Config, n: NodeState, p: Certificate, q: Certificate)
    requires GoodConfig(cfg) && cfg.numRings == 1 && n.Me() != p.id && n.Me() != q.id && p.id != q.id
    requires n.full == map[p.id := KnownAccused(p, 1, n.Me())] && n.live == {p.id} && p.id in n.timers
    requires Welcome(cfg, n, q) && Inside(cfg.hash(1, n.Me()), cfg.hash(1, p.id), cfg.hash(1, q.id))
    ensures var n' := Apply(cfg, n, Hello(q, 1));
      && n'.live == {p.id, q.id} && n'.timers == n.timers && p.id in n'.full && !IsAccused(n'.full[p.id])
  {
    NewcomerJoins(cfg, n, q, 1);
    assert n.Put(q.id, Known(q, 1)).Members() == n.Members();
    assert OutOfDate(cfg, n.Members(), q.id, p.id, 1, n.full[p.id].accusations[1]);
  }

  /** A join can clear a peer's only accusation and leave its timer running: then a peer that nobody accuses is
      expelled. This is so for every peer found dead next to the node and every newcomer that lands between the two. */
  lemma ClearedButExpelled(cfg: Config, me: Certificate, p: Certificate, q: Certificate, t: int, now: int)
    requires GoodConfig(cfg) && cfg.numRings == 1 && me.id != p.id && me.id != q.id && p.id != q.id
    requires Trusted(cfg, p) && Usable(p) && Trusted(cfg, q) && Usable(q)
    requires Inside(cfg.hash(1, me.id), cfg.hash(1, p.id), cfg.hash(1, q.id)) && now - t > cfg.removalTimeout
    ensures var n := Run(cfg, NewNode(cfg, me, []), LandingRun(p, q, t));
      && p.id in n.live && p.id in n.timers && p.id in n.full && !IsAccused(n.full[p.id])
      && !TimedPeers.TimedAreAccused(n)
      && p.id !in Run(cfg, NewNode(cfg, me, []), LandingRun(p, q, t) + [DoTimeouts(now)]).live
  {
    var n0 := NewNode(cfg, me, []);
    var first := [Hello(p, 1), DoMonitor([true], t)];
    AccusedAlone(cfg, me, p, t);
    LandingClears(cfg, Run(cfg, n0, first), p, q);
    Runs(cfg, n0, first, Hello(q, 1));
    Runs(cfg, n0, LandingRun(p, q, t), DoTimeouts(now));
  }

  // ---------------------------------------------------------------------
  // Back, but out of place
  // ---------------------------------------------------------------------

  /** Clockwise the four stand in this order. */
  ghost predicate InOrder(h: RingHash, me: Id, q: Id, x: Id, p: Id) {
    Inside(h(1, me), h(1, p), h(1, q)) && Inside(h(1, q), h(1, p), h(1, x))
  }

  /** Two peers introduce themselves. */
  function Arrival(q: Certificate, p: Certificate): seq<Event> {
    [Hello(q, 1), Hello(p, 1)]
  }

  /** The successor falls silent and is expelled. */
  function Silence(cfg: Config): seq<Event> {
    [DoMonitor([true], 0), DoTimeouts(cfg.removalTimeout + 1)]
  }

  /** The expelled peer's accusation of its own successor arrives, and a newcomer settles between the two. */
  function Overtaking(q: Certificate, x: Certificate, p: Certificate): seq<Event> {
    [Belated(p, q), Hello(x, 1)]
  }

  function OvertakenRun(cfg: Config, q: Certificate, x: Certificate, p: Certificate): seq<Event> {
    Arrival(q, p) + Silence(cfg) + Overtaking(q, x, p)
  }

  /** What the expelled peer had to say about its own successor. */
  function Belated(p: Certificate, q: Certificate): Event {
    OnReply(Reply([], [], [OwnAccusation(NoteAt(p.id, 1), q.id, 1).ToMsg()]), 0)
  }

  lemma TwoJoin(cfg: Config, me: Certificate, q: Certificate, p: Certificate)
    requires GoodConfig(cfg) && cfg.numRings == 1 && me.id != p.id && me.id != q.id && p.id != q.id
    requires Trusted(cfg, p) && Usable(p) && Trusted(cfg, q) && Usable(q)
    ensures var n := Run(cfg, NewNode(cfg, me, []), Arrival(q, p));
      && n.certificate == me && n.full == map[q.id := Known(q, 1), p.id := Known(p, 1)] && n.live == {q.id, p.id}
      && n.timers == map[] && n.monitorRing == 1
  {
    var n0 := NewNode(cfg, me, []);
    assert n0 == NewView(cfg, me);
    RunPair(cfg, n0, Hello(q, 1), Hello(p, 1));
    NewcomerJoinsUnaccused(cfg, n0, q, 1);
    NewcomerJoinsUnaccused(cfg, Apply(cfg, n0, Hello(q, 1)), p, 1);
  }

  lemma OnlyTimerRunsOut(cfg: Config, n: NodeState, q: Id, t: Timer)
    requires n.timers == map[q := t] && t.timeStamp == 0
    ensures CheckTimeouts(cfg, n, cfg.removalTimeout + 1) == n.(live := n.live - {q}, timers := map[])
  {
    assert Expired(cfg, n, cfg.removalTimeout + 1) == {q};
  }

  /** The successor is accused, and expelled once its timer has run out. */
  lemma SilentAndOut(cfg: Config, n: NodeState, q: Certificate, p: Certificate)
    requires GoodConfig(cfg) && cfg.numRings == 1 && n.monitorRing == 1
    requires n.Me() != p.id && n.Me() != q.id && p.id != q.id
    requires n.full == map[q.id := Known(q, 1), p.id := Known(p, 1)] && n.live == {q.id, p.id} && n.timers == map[]
    requires Inside(cfg.hash(1, n.Me()), cfg.hash(1, p.id), cfg.hash(1, q.id))
    ensures var n' := Run(cfg, n, Silence(cfg));
      && n'.certificate == n.certificate && n'.full == map[q.id := KnownAccused(q, 1, n.Me()), p.id := Known(p, 1)]
      && n'.live == {p.id} && n'.timers == map[]
  {
    RunPair(cfg, n, DoMonitor([true], 0), DoTimeouts(cfg.removalTimeout + 1));
    SuccessorAccused(cfg, n, q, 0);
    var n3 := Apply(cfg, n, DoMonitor([true], 0));
    OnlyTimerRunsOut(cfg, n3, q.id, n3.timers[q.id]);
    assert n.full[q.id := KnownAccused(q, 1, n.Me())] == map[q.id := KnownAccused(q, 1, n.Me()), p.id := Known(p, 1)];
  }

  /** An accusation by an expelled peer is accepted where it would stand before the accused. */
  lemma BelatedMerged(cfg: Config, n: NodeState, q: Certificate, p: Certificate, now: int)
    requires GoodConfig(cfg) && cfg.numRings == 1 && n.Me() != p.id && p.id != q.id && Usable(p) && Usable(q)
    requires q.id in n.full && p.id in n.full && n.full[p.id] == Known(p, 1) && ValidAccuser(cfg, n, p.id, q.id, 1)
    ensures var n' := MergeAccusation(cfg, n, OwnAccusation(NoteAt(p.id, 1), q.id, 1).ToMsg(), now);
      && n'.full == n.full[p.id := KnownAccused(p, 1, q.id)] && n'.live == n.live && n'.certificate == n.certificate
      && (p.id in n.live && p.id !in n.timers ==>
           n'.timers == n.timers[p.id := Timer(q.id, now, NoteAt(p.id, 1), p.id)])
  {
    OneRing(Block(0, 1));
    var slot := Some(OwnAccusation(NoteAt(p.id, 1), q.id, 1));
    assert Known(p, 1).accusations[1 := slot] == map[1 := slot];
  }

  /** No accusation between two ring members is on record. */
  ghost predicate NoneAmongMembers(n: NodeState) {
    forall y, r :: y in n.full && y in n.Members() && r in n.full[y].accusations && n.full[y].accusations[r].Some? ==>
      n.full[y].accusations[r].value.accuser !in n.Members()
  }

  lemma NothingToPrune(cfg: Config, n: NodeState, x: Id)
    requires NoneAmongMembers(n) && x !in n.live
    ensures AddLive(cfg, n, x).full == n.full
  {
    forall y | y in n.full ensures Prune(cfg, n.Members(), x, y, n.full[y]) == n.full[y] {
      assert Prune(cfg, n.Members(), x, y, n.full[y]).accusations == n.full[y].accusations;
    }
  }

  lemma OutsiderAccuses(n: NodeState, q: Certificate, p: Certificate)
    requires n.Me() != q.id && p.id != q.id && n.live == {p.id}
    requires n.full == map[q.id := KnownAccused(q, 1, n.Me()), p.id := KnownAccused(p, 1, q.id)]
    ensures NoneAmongMembers(n)
  {
  }

  lemma BelatedAccepted(cfg: Config, n: NodeState, q: Certificate, p: Certificate)
    requires GoodConfig(cfg) && cfg.numRings == 1 && n.Me() != p.id && n.Me() != q.id && p.id != q.id
    requires Usable(p) && Usable(q) && Inside(cfg.hash(1, n.Me()), cfg.hash(1, p.id), cfg.hash(1, q.id))
    requires n.full == map[q.id := KnownAccused(q, 1, n.Me()), p.id := Known(p, 1)] && n.live == {p.id}
    ensures var n' := Apply(cfg, n, Belated(p, q));
      && n'.full == n.full[p.id := KnownAccused(p, 1, q.id)] && n'.live == {p.id} && n'.certificate == n.certificate
      && NoneAmongMembers(n')
  {
    var m := OwnAccusation(NoteAt(p.id, 1), q.id, 1).ToMsg();
    assert [m][..0] == [];
    assert MergeAccusations(cfg, n, [m][..0], 0) == n;
    assert MergeAccusations(cfg, n, [m], 0) == MergeAccusation(cfg, n, m, 0);
    assert MergeReply(cfg, n, Reply([], [], [m]), 0) == MergeAccusations(cfg, n, [m], 0);
    BelatedMerged(cfg, n, q, p, 0);
    OutsiderAccuses(MergeAccusation(cfg, n, m, 0), q, p);
  }

  /** Where no member accuses a member, a newcomer changes no record. */
  lemma NewcomerInFront(cfg: Config, n: NodeState, x: Certificate)
    requires GoodConfig(cfg) && cfg.numRings == 1 && Welcome(cfg, n, x) && x.id !in n.live && NoneAmongMembers(n)
    ensures var n' := Apply(cfg, n, Hello(x, 1));
      n' == n.(full := n.full[x.id := Known(x, 1)], live := n.live + {x.id})
  {
    NewcomerJoins(cfg, n, x, 1);
    var n1 := n.Put(x.id, Known(x, 1));
    assert NoneAmongMembers(n1);
    NothingToPrune(cfg, n1, x.id);
  }

  /** A join never looks at the accusations the newcomer itself has made. */
  lemma OwnAccusationStays(cfg: Config, n: NodeState, q: Id, p: Certificate)
    requires p.id in n.full && n.full[p.id] == KnownAccused(p, 1, q) && q !in n.Members()
    ensures AddLive(cfg, n, q).full[p.id] == n.full[p.id]
  {
    assert Prune(cfg, n.Members(), q, p.id, n.full[p.id]).accusations == n.full[p.id].accusations;
  }

  /** The expelled peer comes back with a newer note; its old accusation is still there. */
  lemma ReturnsBehind(cfg: Config, n: NodeState, q: Certificate, p: Certificate)
    requires GoodConfig(cfg) && cfg.numRings == 1 && NodeInv(cfg, n) && Trusted(cfg, q) && p.id != q.id
    requires q.id !in n.Members() && q.id in n.full && n.full[q.id].note == Some(NoteAt(q.id, 1))
    requires p.id in n.full && n.full[p.id] == KnownAccused(p, 1, q.id)
    ensures var n' := Apply(cfg, n, Hello(q, 2));
      && n'.live == n.live + {q.id} && n'.certificate == n.certificate
      && p.id in n'.full && n'.full[p.id] == KnownAccused(p, 1, q.id)
  {
    OneRing(Block(0, 1));
    var m := NoteAt(q.id, 2).ToMsg();
    Rebuttal.DeliveryEvaluatesNote(cfg, n, q, m);
    EvalNoteEffect(cfg, n, m);
    EvalNoteIsJoin(cfg, n, m);
    OwnAccusationStays(cfg, Noted(n, m), q.id, p);
  }

  lemma OvertakenBy(cfg: Config, n: NodeState, q: Certificate, x: Certificate, p: Certificate)
    requires GoodConfig(cfg) && cfg.numRings == 1 && Welcome(cfg, n, x) && Usable(p) && Usable(q)
    requires n.Me() != p.id && n.Me() != q.id && p.id != q.id
    requires Inside(cfg.hash(1, n.Me()), cfg.hash(1, p.id), cfg.hash(1, q.id))
    requires n.full == map[q.id := KnownAccused(q, 1, n.Me()), p.id := Known(p, 1)] && n.live == {p.id}
    ensures var n' := Run(cfg, n, Overtaking(q, x, p));
      && n'.certificate == n.certificate && n'.live == {p.id, x.id}
      && n'.full == n.full[p.id := KnownAccused(p, 1, q.id)][x.id := Known(x, 1)]
  {
    RunPair(cfg, n, Belated(p, q), Hello(x, 1));
    BelatedAccepted(cfg, n, q, p);
    NewcomerInFront(cfg, Apply(cfg, n, Belated(p, q)), x);
  }

  lemma Overtaken(cfg: Config, me: Certificate, q: Certificate, x: Certificate, p: Certificate)
    requires GoodConfig(cfg) && cfg.numRings == 1 && InOrder(cfg.hash, me.id, q.id, x.id, p.id)
    requires me.id != p.id && me.id != q.id && me.id != x.id && p.id != q.id && p.id != x.id && q.id != x.id
    requires Trusted(cfg, p) && Usable(p) && Trusted(cfg, q) && Usable(q) && Trusted(cfg, x) && Usable(x)
    ensures var n := Run(cfg, NewNode(cfg, me, []), OvertakenRun(cfg, q, x, p));
      && n.certificate == me && n.live == {p.id, x.id}
      && n.full == map[q.id := KnownAccused(q, 1, me.id), p.id := KnownAccused(p, 1, q.id), x.id := Known(x, 1)]
  {
    var n0 := NewNode(cfg, me, []);
    TwoJoin(cfg, me, q, p);
    var n2 := Run(cfg, n0, Arrival(q, p));
    SilentAndOut(cfg, n2, q, p);
    OvertakenBy(cfg, Run(cfg, n2, Silence(cfg)), q, x, p);
    RunAppend(cfg, n0, Arrival(q, p), Silence(cfg));
    RunAppend(cfg, n0, Arrival(q, p) + Silence(cfg), Overtaking(q, x, p));
  }

  /** While the accuser is out, its accusation does not count; */
  lemma InPlace(cfg: Config, n: NodeState, q: Certificate, x: Certificate, p: Certificate)
    requires n.live == {p.id, x.id} && q.id !in n.Members() && p.id != x.id
    requires n.full == map[q.id := KnownAccused(q, 1, n.Me()), p.id := KnownAccused(p, 1, q.id), x.id := Known(x, 1)]
    ensures Predecessors.NamesPredecessors(cfg, n, 1)
  {
    forall y, a ensures Predecessors.PredAt(cfg, n, 1, y, a) {
    }
  }

  /** once it is back, somebody stands in between. */
  lemma OutOfPlace(cfg: Config, n: NodeState, q: Id, x: Id, p: Certificate)
    requires q in n.live && x in n.live && p.id in n.live && p.id in n.full && n.full[p.id] == KnownAccused(p, 1, q)
    requires Inside(cfg.hash(1, q), cfg.hash(1, p.id), cfg.hash(1, x))
    ensures !Predecessors.NamesPredecessors(cfg, n, 1)
  {
    assert x in n.Members();
    assert !Predecessors.PredAt(cfg, n, 1, p.id, q);
  }

  /** A peer that accused its successor, was expelled, was overtaken and comes back leaves an accusation between live
      peers that does not name the accused's predecessor. It was the return that broke the rule. */
  lemma BackOutOfPlace(cfg: Config, me: Certificate, q: Certificate, x: Certificate, p: Certificate)
    requires GoodConfig(cfg) && cfg.numRings == 1 && InOrder(cfg.hash, me.id, q.id, x.id, p.id)
    requires me.id != p.id && me.id != q.id && me.id != x.id && p.id != q.id && p.id != x.id && q.id != x.id
    requires Trusted(cfg, p) && Usable(p) && Trusted(cfg, q) && Usable(q) && Trusted(cfg, x) && Usable(x)
    ensures var start, events := NewNode(cfg, me, []), OvertakenRun(cfg, q, x, p);
      && Predecessors.NamesPredecessors(cfg, Run(cfg, start, events), 1)
      && !Predecessors.NamesPredecessors(cfg, Run(cfg, start, events + [Hello(q, 2)]), 1)
  {
    var n0, events := NewNode(cfg, me, []), OvertakenRun(cfg, q, x, p);
    var n := Run(cfg, n0, events);
    Overtaken(cfg, me, q, x, p);
    RunOk(cfg, me, events);
    InPlace(cfg, n, q, x, p);
    ReturnsBehind(cfg, n, q, p);
    Runs(cfg, n0, events, Hello(q, 2));
    OutOfPlace(cfg, Apply(cfg, n, Hello(q, 2)), q.id, x.id, p);
  }

  // ---------------------------------------------------------------------
  // One reply tells all
  // ---------------------------------------------------------------------

  /** A reply with the certificates and notes of two peers, and the accusation of one by the other. */
  function News(q: Certificate, p: Certificate): Reply {
    Reply([q, p], [NoteAt(q.id, 1).ToMsg(), NoteAt(p.id, 1).ToMsg()], [OwnAccusation(NoteAt(p.id, 1), q.id, 1).ToMsg()])
  }

  function Bare(c: Certificate): PeerState {
    PeerState(c, None, map[1 := None])
  }

  lemma TwoCertificates(cfg: Config, n: NodeState, q: Certificate, p: Certificate)
    requires GoodConfig(cfg) && cfg.numRings == 1 && n.full == map[] && n.Me() != p.id && n.Me() != q.id && p.id != q.id
    requires Trusted(cfg, p) && Usable(p) && Trusted(cfg, q) && Usable(q)
    ensures MergeCertificates(cfg, n, [q, p]) == n.(full := map[q.id := Bare(q), p.id := Bare(p)])
  {
    assert RingNums(1) == {1};
    assert [q, p][..1] == [q] && [q][..0] == [];
    assert MergeCertificates(cfg, n, []) == n;
    var empty: map<nat, Option<Accusation>> := map r | r in RingNums(1) :: None;
    assert empty == map[1 := None];
    assert MergeCertificates(cfg, n, [q]) == n.(full := map[q.id := Bare(q)]);
  }

  lemma OneNote(cfg: Config, n: NodeState, c: Certificate)
    requires cfg.numRings == 1 && Unaccused(n) && c.id != n.Me() && c.id in n.full && n.full[c.id] == Bare(c)
    ensures var n' := MergeNote(cfg, n, NoteAt(c.id, 1).ToMsg());
      n' == n.(full := n.full[c.id := Known(c, 1)], live := n.live + {c.id}) && Unaccused(n')
  {
    FirstNote(cfg, n, c, 1);
    JoinUnaccused(cfg, n.Put(c.id, Known(c, 1)), c.id);
  }

  lemma TwoNotes(cfg: Config, n: NodeState, q: Certificate, p: Certificate)
    requires GoodConfig(cfg) && cfg.numRings == 1 && n.Me() != p.id && n.Me() != q.id && p.id != q.id
    requires Unaccused(n) && q.id in n.full && n.full[q.id] == Bare(q) && p.id in n.full && n.full[p.id] == Bare(p)
    ensures MergeNotes(cfg, n, [NoteAt(q.id, 1).ToMsg(), NoteAt(p.id, 1).ToMsg()]) ==
      n.(full := n.full[q.id := Known(q, 1)][p.id := Known(p, 1)], live := n.live + {q.id} + {p.id})
  {
    var a, b := NoteAt(q.id, 1).ToMsg(), NoteAt(p.id, 1).ToMsg();
    assert [a, b][..1] == [a] && [a][..0] == [];
    assert MergeNotes(cfg, n, []) == n;
    OneNote(cfg, n, q);
    OneNote(cfg, MergeNote(cfg, n, a), p);
  }

  lemma TwoLearned(n: NodeState, q: Certificate, p: Certificate)
    requires p.id != q.id && n.full == map[q.id := Bare(q), p.id := Bare(p)] && n.live == {}
    ensures n.(full := n.full[q.id := Known(q, 1)][p.id := Known(p, 1)], live := n.live + {q.id} + {p.id}) ==
      n.(full := map[q.id := Known(q, 1), p.id := Known(p, 1)], live := {q.id, p.id})
  {
    assert n.full[q.id := Known(q, 1)][p.id := Known(p, 1)] == map[q.id := Known(q, 1), p.id := Known(p, 1)];
    assert n.live + {q.id} + {p.id} == {q.id, p.id};
  }

  lemma MergedIs(cfg: Config, n: NodeState, reply: Reply, now: int, n1: NodeState, n2: NodeState)
    requires cfg.numRings >= 1 && MergeCertificates(cfg, n, reply.certificates) == n1
    requires MergeNotes(cfg, n1, reply.notes) == n2
    ensures MergeReply(cfg, n, reply, now) == MergeAccusations(cfg, n2, reply.accusations, now)
  {
  }

  lemma NewsAccepted(cfg: Config, n: NodeState, q: Certificate, p: Certificate, now: int)
    requires GoodConfig(cfg) && cfg.numRings == 1 && n.Me() != p.id && n.Me() != q.id && p.id != q.id
    requires Usable(p) && Usable(q) && Inside(cfg.hash(1, n.Me()), cfg.hash(1, p.id), cfg.hash(1, q.id))
    requires n.full == map[q.id := Known(q, 1), p.id := Known(p, 1)] && n.live == {q.id, p.id} && n.timers == map[]
    ensures var n' := MergeAccusations(cfg, n, News(q, p).accusations, now);
      && n'.full == n.full[p.id := KnownAccused(p, 1, q.id)] && n'.live == n.live
      && n'.timers == map[p.id := Timer(q.id, now, NoteAt(p.id, 1), p.id)]
  {
    var m := OwnAccusation(NoteAt(p.id, 1), q.id, 1).ToMsg();
    assert [m][..0] == [];
    assert MergeAccusations(cfg, n, [m][..0], now) == n;
    assert MergeAccusations(cfg, n, [m], now) == MergeAccusation(cfg, n, m, now);
    assert ValidAccuser(cfg, n, p.id, q.id, 1);
    BelatedMerged(cfg, n, q, p, now);
  }

  /** A node that knows nobody and has no timer running learns all of it from one reply. */
  lemma NewsMerged(cfg: Config, n: NodeState, q: Certificate, p: Certificate, now: int)
    requires GoodConfig(cfg) && cfg.numRings == 1 && n.Me() != p.id && n.Me() != q.id && p.id != q.id
    requires Trusted(cfg, p) && Usable(p) && Trusted(cfg, q) && Usable(q)
    requires Inside(cfg.hash(1, n.Me()), cfg.hash(1, p.id), cfg.hash(1, q.id))
    requires n.full == map[] && n.live == {} && n.timers == map[]
    ensures var n' := MergeReply(cfg, n, News(q, p), now);
      && n'.live == {q.id, p.id} && n'.full == map[q.id := Known(q, 1), p.id := KnownAccused(p, 1, q.id)]
      && n'.timers == map[p.id := Timer(q.id, now, NoteAt(p.id, 1), p.id)]
  {
    var n1 := n.(full := map[q.id := Bare(q), p.id := Bare(p)]);
    var n2 := n1.(full := map[q.id := Known(q, 1), p.id := Known(p, 1)], live := {q.id, p.id});
    TwoCertificates(cfg, n, q, p);
    TwoNotes(cfg, n1, q, p);
    TwoLearned(n1, q, p);
    MergedIs(cfg, n, News(q, p), now, n1, n2);
    NewsAccepted(cfg, n2, q, p, now);
  }

  /** A node just started learns all of it from one reply: both peers are live, and the accused is accused and timed.
      This takes the certificates before the notes and the notes before the accusations. */
  lemma OneReplyTellsAll(cfg: Config, me: Certificate, q: Certificate, p: Certificate, now: int)
    requires GoodConfig(cfg) && cfg.numRings == 1 && me.id != p.id && me.id != q.id && p.id != q.id
    requires Trusted(cfg, p) && Usable(p) && Trusted(cfg, q) && Usable(q)
    requires Inside(cfg.hash(1, me.id), cfg.hash(1, p.id), cfg.hash(1, q.id))
    ensures var n := MergeReply(cfg, NewNode(cfg, me, []), News(q, p), now);
      && n.live == {q.id, p.id} && n.full == map[q.id := Known(q, 1), p.id := KnownAccused(p, 1, q.id)]
      && n.timers == map[p.id := Timer(q.id, now, NoteAt(p.id, 1), p.id)]
  {
    assert NewNode(cfg, me, []) == NewView(cfg, me);
    NewsMerged(cfg, NewNode(cfg, me, []), q, p, now);
  }
}
