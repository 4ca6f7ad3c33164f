/** Where stored signatures come from: a node stores only signatures it was given or made itself. */
module Provenance {
  import opened Types
  import opened PeerSpec
  import opened NodeSpec
  import opened Protocol
  import opened Invariant
  import opened Steps

  ghost predicate Within(s: Option<Signature>, known: iset<Signature>) {
    s.Some? ==> s.value in known
  }

  ghost predicate PeerWithin(p: PeerState, known: iset<Signature>) {
    && (p.note.Some? ==> p.note.value.signature in known)
    && (forall r :: r in p.accusations && p.accusations[r].Some? ==> p.accusations[r].value.signature in known)
  }

  ghost predicate StoredAt(n: NodeState, known: iset<Signature>, q: Id) {
    q in n.full ==> PeerWithin(n.full[q], known)
  }

  /** Every signature in the node's view of others is among `known`. */
  ghost predicate Stored(n: NodeState, known: iset<Signature>) {
    forall q :: StoredAt(n, known, q)
  }

  ghost predicate SignedWithin(n: NodeState, known: iset<Signature>) {
    forall s :: s in n.signed ==> s in known
  }

  ghost predicate ReplyWithin(reply: Reply, known: iset<Signature>) {
    && (forall i :: 0 <= i < |reply.notes| ==> Within(reply.notes[i].signature, known))
    && (forall i :: 0 <= i < |reply.accusations| ==> Within(reply.accusations[i].signature, known))
  }

  ghost predicate EventWithin(e: Event, known: iset<Signature>) {
    match e
    case OnRequest(_, state) => Within(state.ownNote.signature, known)
    case OnReply(reply, _) => ReplyWithin(reply, known)
    case _ => true
  }

  lemma PutStored(n: NodeState, known: iset<Signature>, q: Id, p: PeerState)
    requires Stored(n, known) && PeerWithin(p, known)
    ensures Stored(n.Put(q, p), known)
  {
    forall x ensures StoredAt(n.Put(q, p), known, x) {
      assert StoredAt(n, known, x);
    }
  }

  lemma SameFullStored(n: NodeState, n': NodeState, known: iset<Signature>)
    requires Stored(n, known) && n'.full == n.full
    ensures Stored(n', known)
  {
    forall x ensures StoredAt(n', known, x) {
      assert StoredAt(n, known, x);
    }
  }

  lemma AddLiveStored(cfg: Config, n: NodeState, known: iset<Signature>, p: Id)
    requires Stored(n, known) && p in n.full
    ensures Stored(AddLive(cfg, n, p), known)
  {
    AddLiveEffect(cfg, n, p);
    forall x ensures StoredAt(AddLive(cfg, n, p), known, x) {
      assert StoredAt(n, known, x);
    }
  }

  lemma EvalCertificateStored(cfg: Config, n: NodeState, known: iset<Signature>, c: Certificate)
    requires Stored(n, known)
    ensures Stored(EvalCertificate(cfg, n, c).0, known)
  {
    var n' := EvalCertificate(cfg, n, c).0;
    forall x ensures StoredAt(n', known, x) {
      assert StoredAt(n, known, x);
    }
  }

  lemma EvalNoteStored(cfg: Config, n: NodeState, known: iset<Signature>, m: NoteMsg)
    requires Stored(n, known) && Within(m.signature, known)
    ensures Stored(EvalNote(cfg, n, m).0, known)
  {
    if m.id in n.full && m.signature.Some? && EvalNote(cfg, n, m).1 == Ok {
      assert StoredAt(n, known, m.id);
      var p1 := Renewed(n.full[m.id], m);
      PutStored(n, known, m.id, p1);
      var n1 := n.Put(m.id, p1);
      var n2 := n1.(timers := n1.timers - {m.id});
      SameFullStored(n1, n2, known);
      AddLiveStored(cfg, n1, known, m.id);
      AddLiveStored(cfg, n2, known, m.id);
    }
  }

  lemma MergeAccusationStored(cfg: Config, n: NodeState, known: iset<Signature>, m: AccusationMsg, now: int)
    requires cfg.numRings >= 1 && Stored(n, known) && Within(m.signature, known)
    ensures Stored(MergeAccusation(cfg, n, m, now), known)
  {
    var n' := MergeAccusation(cfg, n, m, now);
    if n'.full != n.full {
      assert StoredAt(n, known, m.accused);
      PutStored(n, known, m.accused, n'.full[m.accused]);
      SameFullStored(n.Put(m.accused, n'.full[m.accused]), n', known);
    } else {
      SameFullStored(n, n', known);
    }
  }

  lemma {:induction false} MergeCertificatesStored(cfg: Config, n: NodeState, known: iset<Signature>,
                                                   cs: seq<Certificate>)
    requires Stored(n, known)
    ensures Stored(MergeCertificates(cfg, n, cs), known)
  {
    if cs != [] {
      MergeCertificatesStored(cfg, n, known, cs[..|cs| - 1]);
      EvalCertificateStored(cfg, MergeCertificates(cfg, n, cs[..|cs| - 1]), known, cs[|cs| - 1]);
    }
  }

  lemma {:induction false} MergeNotesStored(cfg: Config, n: NodeState, known: iset<Signature>, ms: seq<NoteMsg>)
    requires Stored(n, known) && forall i :: 0 <= i < |ms| ==> Within(ms[i].signature, known)
    ensures Stored(MergeNotes(cfg, n, ms), known)
  {
    if ms != [] {
      MergeNotesStored(cfg, n, known, ms[..|ms| - 1]);
      EvalNoteStored(cfg, MergeNotes(cfg, n, ms[..|ms| - 1]), known, ms[|ms| - 1]);
    }
  }

  lemma {:induction false} MergeAccusationsStored(cfg: Config, n: NodeState, known: iset<Signature>,
                                                  ms: seq<AccusationMsg>, now: int)
    requires cfg.numRings >= 1 && Stored(n, known) && forall i :: 0 <= i < |ms| ==> Within(ms[i].signature, known)
    ensures Stored(MergeAccusations(cfg, n, ms, now), known)
  {
    if ms != [] {
      MergeAccusationsStored(cfg, n, known, ms[..|ms| - 1], now);
      MergeAccusationStored(cfg, MergeAccusations(cfg, n, ms[..|ms| - 1], now), known, ms[|ms| - 1], now);
    }
  }

  lemma MonitorStepStored(cfg: Config, n: NodeState, known: iset<Signature>, dead: bool, now: int)
    requires Stored(n, known) && SignedWithin(MonitorStep(cfg, n, dead, now), known)
    ensures Stored(MonitorStep(cfg, n, dead, now), known)
  {
    var n' := MonitorStep(cfg, n, dead, now);
    var target := RingSuccessor(cfg, n, n.monitorRing);
    if n'.full != n.full {
      var q := target.value;
      assert StoredAt(n, known, q);
      PutStored(n, known, q, n'.full[q]);
      SameFullStored(n.Put(q, n'.full[q]), n', known);
    } else {
      SameFullStored(n, n', known);
    }
  }

  lemma {:induction false} MonitorRoundStored(cfg: Config, n: NodeState, known: iset<Signature>,
                                              verdicts: seq<bool>, now: int)
    requires GoodConfig(cfg) && NodeInv(cfg, n) && Stored(n, known)
    requires SignedWithin(MonitorRound(cfg, n, verdicts, now), known)
    ensures Stored(MonitorRound(cfg, n, verdicts, now), known)
  {
    if verdicts != [] {
      var rest := verdicts[..|verdicts| - 1];
      var before := MonitorRound(cfg, n, rest, now);
      MonitorRoundKeeps(cfg, n, rest, now);
      MonitorStepKeeps(cfg, before, verdicts[|verdicts| - 1], now);
      MonitorRoundStored(cfg, n, known, rest, now);
      MonitorStepStored(cfg, before, known, verdicts[|verdicts| - 1], now);
    }
  }

  /** A step stores only signatures from the event it handles, from the node's own hand, or stored before. */
  lemma ApplyStored(cfg: Config, n: NodeState, known: iset<Signature>, e: Event)
    requires GoodConfig(cfg) && NodeInv(cfg, n) && Stored(n, known) && EventWithin(e, known)
    requires SignedWithin(Apply(cfg, n, e), known)
    ensures Stored(Apply(cfg, n, e), known)
  {
    match e
    case OnRequest(certificate, state) =>
      if certificate.Some? {
        var n1 := EvalCertificate(cfg, n, certificate.value).0;
        EvalCertificateStored(cfg, n, known, certificate.value);
        EvalNoteStored(cfg, n, known, state.ownNote);
        EvalNoteStored(cfg, n1, known, state.ownNote);
      }
    case OnReply(reply, now) =>
      var n1 := MergeCertificates(cfg, n, reply.certificates);
      MergeCertificatesStored(cfg, n, known, reply.certificates);
      MergeNotesStored(cfg, n1, known, reply.notes);
      MergeAccusationsStored(cfg, MergeNotes(cfg, n1, reply.notes), known, reply.accusations, now);
    case DoGossip(hosts) => SameFullStored(n, SendToPartners(cfg, n, hosts), known);
    case DoMonitor(verdicts, now) => MonitorRoundStored(cfg, n, known, verdicts, now);
    case DoTimeouts(now) => SameFullStored(n, CheckTimeouts(cfg, n, now), known);
  }
}
