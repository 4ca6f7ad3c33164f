/** Every event at a node as a sequence of small steps, one certificate, note, accusation or probe at a time. */
module SmallSteps {
  import opened Types
  import opened NodeSpec
  import opened Protocol
  import opened Invariant
  import opened Steps

  datatype Small =
    | TakeCertificate(certificate: Certificate)
    | TakeNote(note: NoteMsg)
    | TakeAccusation(accusation: AccusationMsg, now: int)
    | Probe(dead: bool, now: int)
    | Expel(now: int)
    | Issue(hosts: map<Id, nat>)

  ghost function Do(cfg: Config, n: NodeState, s: Small): NodeState
    requires cfg.numRings >= 1
  {
    match s
    case TakeCertificate(c) => EvalCertificate(cfg, n, c).0
    case TakeNote(m) => EvalNote(cfg, n, m).0
    case TakeAccusation(m, now) => MergeAccusation(cfg, n, m, now)
    case Probe(dead, now) => MonitorStep(cfg, n, dead, now)
    case Expel(now) => CheckTimeouts(cfg, n, now)
    case Issue(hosts) => SendToPartners(cfg, n, hosts)
  }

  ghost function DoAll(cfg: Config, n: NodeState, ss: seq<Small>): NodeState
    requires cfg.numRings >= 1
  {
    if ss == [] then n else Do(cfg, DoAll(cfg, n, ss[..|ss| - 1]), ss[|ss| - 1])
  }

  /** A note brings a peer back into the live view. */
  ghost predicate BringsBack(cfg: Config, n: NodeState, s: Small) {
    s.TakeNote? && Acceptable(cfg, n, s.note) && s.note.id !in n.live
  }

  lemma {:induction false} DoAllAppend(cfg: Config, n: NodeState, a: seq<Small>, b: seq<Small>)
    requires cfg.numRings >= 1
    ensures DoAll(cfg, n, a + b) == DoAll(cfg, DoAll(cfg, n, a), b)
  {
    if b == [] {
      assert a + b == a;
    } else {
      assert (a + b)[..|a + b| - 1] == a + b[..|b| - 1];
      DoAllAppend(cfg, n, a, b[..|b| - 1]);
    }
  }

  lemma DoKeeps(cfg: Config, n: NodeState, s: Small)
    requires GoodConfig(cfg) && NodeInv(cfg, n)
    ensures Keeps(cfg, n, Do(cfg, n, s))
  {
    match s
    case TakeCertificate(c) => EvalCertificateKeeps(cfg, n, c);
    case TakeNote(m) => EvalNoteKeeps(cfg, n, m);
    case TakeAccusation(m, now) => MergeAccusationKeeps(cfg, n, m, now);
    case Probe(dead, now) => MonitorStepKeeps(cfg, n, dead, now);
    case Expel(now) => CheckTimeoutsKeeps(cfg, n, now);
    case Issue(hosts) => SendKeeps(cfg, n, hosts);
  }

  lemma {:induction false} DoAllKeeps(cfg: Config, n: NodeState, ss: seq<Small>)
    requires GoodConfig(cfg) && NodeInv(cfg, n)
    ensures Keeps(cfg, n, DoAll(cfg, n, ss))
  {
    if ss != [] {
      var before := DoAll(cfg, n, ss[..|ss| - 1]);
      DoAllKeeps(cfg, n, ss[..|ss| - 1]);
      DoKeeps(cfg, before, ss[|ss| - 1]);
      KeepsTrans(cfg, n, before, DoAll(cfg, n, ss));
    }
  }

  // ---------------------------------------------------------------------
  // The parts of an event
  // ---------------------------------------------------------------------

  function Certificates(cs: seq<Certificate>): seq<Small> {
    seq(|cs|, i requires 0 <= i < |cs| => TakeCertificate(cs[i]))
  }

  function Notes(ms: seq<NoteMsg>): seq<Small> {
    seq(|ms|, i requires 0 <= i < |ms| => TakeNote(ms[i]))
  }

  function Accusations(ms: seq<AccusationMsg>, now: int): seq<Small> {
    seq(|ms|, i requires 0 <= i < |ms| => TakeAccusation(ms[i], now))
  }

  function Probes(verdicts: seq<bool>, now: int): seq<Small> {
    seq(|verdicts|, i requires 0 <= i < |verdicts| => Probe(verdicts[i], now))
  }

  ghost function Parts(cfg: Config, n: NodeState, e: Event): seq<Small> {
    match e
    case OnRequest(certificate, state) =>
      if certificate.None? then []
      else if !ShouldBeNeighbour(cfg, n, certificate.value.id) && certificate.value.id in n.full
      then [TakeNote(state.ownNote)]
      else if EvalCertificate(cfg, n, certificate.value).1 != Ok then []
      else [TakeCertificate(certificate.value), TakeNote(state.ownNote)]
    case OnReply(reply, now) =>
      Certificates(reply.certificates) + Notes(reply.notes) + Accusations(reply.accusations, now)
    case DoGossip(hosts) => [Issue(hosts)]
    case DoMonitor(verdicts, now) => Probes(verdicts, now)
    case DoTimeouts(now) => [Expel(now)]
  }

  lemma {:induction false} CertificatesAre(cfg: Config, n: NodeState, cs: seq<Certificate>)
    requires cfg.numRings >= 1
    ensures MergeCertificates(cfg, n, cs) == DoAll(cfg, n, Certificates(cs))
  {
    if cs != [] {
      CertificatesAre(cfg, n, cs[..|cs| - 1]);
      assert Certificates(cs)[..|cs| - 1] == Certificates(cs[..|cs| - 1]);
    }
  }

  /** A note of the node itself is about a peer it does not know, so skipping it and evaluating it come to the same. */
  lemma {:induction false} NotesAre(cfg: Config, n: NodeState, ms: seq<NoteMsg>)
    requires GoodConfig(cfg) && NodeInv(cfg, n)
    ensures MergeNotes(cfg, n, ms) == DoAll(cfg, n, Notes(ms))
  {
    if ms != [] {
      NotesAre(cfg, n, ms[..|ms| - 1]);
      MergeNotesKeeps(cfg, n, ms[..|ms| - 1]);
      assert Notes(ms)[..|ms| - 1] == Notes(ms[..|ms| - 1]);
    }
  }

  lemma {:induction false} AccusationsAre(cfg: Config, n: NodeState, ms: seq<AccusationMsg>, now: int)
    requires cfg.numRings >= 1
    ensures MergeAccusations(cfg, n, ms, now) == DoAll(cfg, n, Accusations(ms, now))
  {
    if ms != [] {
      AccusationsAre(cfg, n, ms[..|ms| - 1], now);
      assert Accusations(ms, now)[..|ms| - 1] == Accusations(ms[..|ms| - 1], now);
    }
  }

  lemma {:induction false} ProbesAre(cfg: Config, n: NodeState, verdicts: seq<bool>, now: int)
    requires cfg.numRings >= 1
    ensures MonitorRound(cfg, n, verdicts, now) == DoAll(cfg, n, Probes(verdicts, now))
  {
    if verdicts != [] {
      ProbesAre(cfg, n, verdicts[..|verdicts| - 1], now);
      assert Probes(verdicts, now)[..|verdicts| - 1] == Probes(verdicts[..|verdicts| - 1], now);
    }
  }

  lemma ReplyIs(cfg: Config, n: NodeState, reply: Reply, now: int)
    requires GoodConfig(cfg) && NodeInv(cfg, n)
    ensures MergeReply(cfg, n, reply, now) ==
      DoAll(cfg, n, Certificates(reply.certificates) + Notes(reply.notes) + Accusations(reply.accusations, now))
  {
    var cs, ns := Certificates(reply.certificates), Notes(reply.notes);
    var n1 := MergeCertificates(cfg, n, reply.certificates);
    CertificatesAre(cfg, n, reply.certificates);
    MergeCertificatesKeeps(cfg, n, reply.certificates);
    NotesAre(cfg, n1, reply.notes);
    AccusationsAre(cfg, MergeNotes(cfg, n1, reply.notes), reply.accusations, now);
    DoAllAppend(cfg, n, cs, ns);
    DoAllAppend(cfg, n, cs + ns, Accusations(reply.accusations, now));
  }

  /** One or two small steps in a row. */
  lemma DoOneOrTwo(cfg: Config, n: NodeState, s: Small, t: Small)
    requires cfg.numRings >= 1
    ensures DoAll(cfg, n, [s]) == Do(cfg, n, s) && DoAll(cfg, n, [s, t]) == Do(cfg, Do(cfg, n, s), t)
  {
    assert [s][..0] == [] && [s, t][..1] == [s];
  }

  lemma EventIs(cfg: Config, n: NodeState, e: Event)
    requires GoodConfig(cfg) && NodeInv(cfg, n)
    ensures Apply(cfg, n, e) == DoAll(cfg, n, Parts(cfg, n, e))
  {
    match e
    case OnRequest(certificate, state) =>
      if certificate.Some? {
        DoOneOrTwo(cfg, n, TakeCertificate(certificate.value), TakeNote(state.ownNote));
        DoOneOrTwo(cfg, n, TakeNote(state.ownNote), TakeNote(state.ownNote));
      }
    case OnReply(reply, now) => ReplyIs(cfg, n, reply, now);
    case DoGossip(hosts) => DoOneOrTwo(cfg, n, Issue(hosts), Issue(hosts));
    case DoMonitor(verdicts, now) => ProbesAre(cfg, n, verdicts, now);
    case DoTimeouts(now) => DoOneOrTwo(cfg, n, Expel(now), Expel(now));
  }

  /** The small steps of a whole run. */
  ghost function RunParts(cfg: Config, n: NodeState, events: seq<Event>): seq<Small>
    requires cfg.numRings >= 1
  {
    if events == [] then []
    else
      var rest := events[..|events| - 1];
      RunParts(cfg, n, rest) + Parts(cfg, Run(cfg, n, rest), events[|events| - 1])
  }

  /** A run is the sequence of its small steps, so what every small step keeps holds along every run. */
  lemma {:induction false} RunIs(cfg: Config, n: NodeState, events: seq<Event>)
    requires GoodConfig(cfg) && NodeInv(cfg, n)
    ensures Run(cfg, n, events) == DoAll(cfg, n, RunParts(cfg, n, events))
  {
    if events != [] {
      var rest := events[..|events| - 1];
      RunIs(cfg, n, rest);
      RunKeeps(cfg, n, rest);
      EventIs(cfg, Run(cfg, n, rest), events[|events| - 1]);
      DoAllAppend(cfg, n, RunParts(cfg, n, rest), Parts(cfg, Run(cfg, n, rest), events[|events| - 1]));
    }
  }
}
