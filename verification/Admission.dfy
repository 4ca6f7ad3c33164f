/** Whom a node takes into its view, and whom it answers how, said on certificates and positions. */
module Admission {
  import opened Types
  import opened Mask
  import opened Circle
  import opened PeerSpec
  import opened NodeSpec
  import opened Protocol
  import opened Invariant
  import opened Steps

  // ---------------------------------------------------------------------
  // Certificates
  // ---------------------------------------------------------------------

  /** A certificate is vouched for: by the authority where there is one, by its own key where there is none. */
  predicate VouchedFor(cfg: Config, c: Certificate) {
    |c.id.bytes| == 32 && (cfg.hasCa ==> c.caSigned) && (!cfg.hasCa ==> c.selfSigned)
  }

  /** A certificate names two addresses and holds an ECDSA key. */
  predicate Addressable(c: Certificate) {
    c.localityFields >= 2 && c.ecdsaKey
  }

  /** A certificate is accepted exactly when it is not the node's own and vouched for. A record appears exactly for an
      accepted certificate of an unknown, addressable peer; it has no note and an empty slot for every ring. Nothing
      else changes. */
  lemma CertificateExactly(cfg: Config, n: NodeState, c: Certificate)
    requires cfg.numRings >= 1
    ensures var (n', outcome) := EvalCertificate(cfg, n, c);
      && (outcome == Ok <==> c.id != n.Me() && VouchedFor(cfg, c))
      && (outcome == SelfCertificate <==> c.id == n.Me())
      && (outcome == InvalidId <==> c.id != n.Me() && |c.id.bytes| != 32)
      && n' == n.(full := n'.full)
      && (if c.id !in n.full && c.id != n.Me() && VouchedFor(cfg, c) && Addressable(c)
          then c.id in n'.full && n'.full == n.full[c.id := n'.full[c.id]]
               && n'.full[c.id].certificate == c && n'.full[c.id].note == None
               && (forall r :: r in n'.full[c.id].accusations <==> 1 <= r <= cfg.numRings)
               && (forall r :: r in n'.full[c.id].accusations ==> n'.full[c.id].accusations[r] == None)
          else n'.full == n.full)
  {
  }

  /** In a consistent node every record is that of a addressable peer whose certificate is vouched for. */
  lemma RecordsAreVouchedFor(cfg: Config, n: NodeState, q: Id)
    requires NodeInv(cfg, n) && q in n.full
    ensures var c := n.full[q].certificate;
      c.id == q && VouchedFor(cfg, c) && Addressable(c)
  {
    assert EntryAt(cfg, n, q);
  }

  /** So along every run from start-up: with an authority, everybody a node ever knows carries its signature. */
  lemma RunsAdmitOnlyVouchedFor(cfg: Config, me: Certificate, contacts: seq<Certificate>, events: seq<Event>, q: Id)
    requires GoodConfig(cfg) && q in Run(cfg, NewNode(cfg, me, contacts), events).full
    ensures var c := Run(cfg, NewNode(cfg, me, contacts), events).full[q].certificate;
      c.id == q && Addressable(c) && |q.bytes| == 32 && (if cfg.hasCa then c.caSigned else c.selfSigned)
  {
    NewNodeOk(cfg, me, contacts);
    RunKeeps(cfg, NewNode(cfg, me, contacts), events);
    RecordsAreVouchedFor(cfg, Run(cfg, NewNode(cfg, me, contacts), events), q);
  }

  // ---------------------------------------------------------------------
  // Start-up
  // ---------------------------------------------------------------------

  /** A contact that a node will take in. */
  predicate Eligible(cfg: Config, me: Id, c: Certificate) {
    c.id != me && VouchedFor(cfg, c) && Addressable(c)
  }

  /** One of the contacts is eligible and has the id `q`. */
  ghost predicate IsContact(cfg: Config, me: Id, cs: seq<Certificate>, q: Id) {
    exists i :: 0 <= i < |cs| && Eligible(cfg, me, cs[i]) && cs[i].id == q
  }

  lemma {:induction false} MergedExactly(cfg: Config, n: NodeState, cs: seq<Certificate>, q: Id)
    requires cfg.numRings >= 1
    ensures var n' := MergeCertificates(cfg, n, cs);
      && n' == n.(full := n'.full)
      && (q in n'.full <==> q in n.full || IsContact(cfg, n.Me(), cs, q))
  {
    if cs != [] {
      var rest, last := cs[..|cs| - 1], cs[|cs| - 1];
      MergedExactly(cfg, n, rest, q);
      CertificateExactly(cfg, MergeCertificates(cfg, n, rest), last);
      if i :| 0 <= i < |cs| && Eligible(cfg, n.Me(), cs[i]) && cs[i].id == q {
        assert i < |rest| ==> rest[i] == cs[i];
      }
    }
  }

  /** After start-up with an authority, exactly the eligible contacts are known, and they are all live. Without one,
      nobody is known yet. Nobody is accused or timed. The node's note is its first, signed, with every ring on. */
  lemma ContactsAreLive(cfg: Config, me: Certificate, contacts: seq<Certificate>, q: Id)
    requires GoodConfig(cfg)
    ensures var n := NewNode(cfg, me, contacts);
      && n.timers == map[] && n.certificate == me && n.gossipRing == 1 && n.monitorRing == 1 && n.sent == []
      && n.note.epoch == 1 && n.note.id == me.id && n.note.Signed() && n.signed == {n.note.signature}
      && n.deactivated == 0 && (forall i: nat :: HasBit(n.note.mask, i) <==> i < cfg.numRings)
      && (q in n.full <==> cfg.hasCa && IsContact(cfg, me.id, contacts, q))
      && (q in n.live <==> q in n.full)
      && (q in n.full ==> n.full[q].note == None && !IsAccused(n.full[q]))
  {
    var n0 := NewView(cfg, me);
    MergedExactly(cfg, n0, contacts, q);
    MergeCertificatesBare(cfg, n0, contacts);
    MergedWithoutNotes(cfg, n0, contacts, q);
    forall i: nat ensures HasBit(n0.note.mask, i) <==> i < cfg.numRings {
      BlockBits(0, cfg.numRings, i);
    }
  }

  lemma {:induction false} MergedWithoutNotes(cfg: Config, n: NodeState, cs: seq<Certificate>, q: Id)
    requires cfg.numRings >= 1 && (q in n.full ==> n.full[q].note == None)
    ensures q in MergeCertificates(cfg, n, cs).full ==> MergeCertificates(cfg, n, cs).full[q].note == None
  {
    if cs != [] {
      MergedWithoutNotes(cfg, n, cs[..|cs| - 1], q);
      CertificateExactly(cfg, MergeCertificates(cfg, n, cs[..|cs| - 1]), cs[|cs| - 1]);
    }
  }

  // ---------------------------------------------------------------------
  // Requests
  // ---------------------------------------------------------------------

  /** No live peer, nor the node, stands strictly between `a` and `b` on ring `r`. */
  ghost predicate NothingBetween(cfg: Config, n: NodeState, r: nat, a: Id, b: Id) {
    forall x :: x in n.live || x == n.Me() ==> !Inside(cfg.hash(r, a), cfg.hash(r, b), cfg.hash(r, x))
  }

  /** On some ring the two would stand next to each other. */
  ghost predicate Adjacent(cfg: Config, n: NodeState, a: Id, b: Id) {
    exists r: nat :: 1 <= r <= cfg.numRings && (NothingBetween(cfg, n, r, a, b) || NothingBetween(cfg, n, r, b, a))
  }

  lemma AdjacentIs(cfg: Config, n: NodeState, a: Id, b: Id)
    ensures NeighbourOnSomeRing(cfg, n, a, b) <==> Adjacent(cfg, n, a, b)
  {
    if NeighbourOnSomeRing(cfg, n, a, b) {
      var r :| IsRing(r, cfg.numRings) && NextTo(cfg.hash, r, n.Members(), a, b);
      assert NothingBetween(cfg, n, r, a, b) || NothingBetween(cfg, n, r, b, a);
    }
    if r: nat :| 1 <= r <= cfg.numRings && (NothingBetween(cfg, n, r, a, b) || NothingBetween(cfg, n, r, b, a)) {
      assert IsRing(r, cfg.numRings) && NextTo(cfg.hash, r, n.Members(), a, b);
    }
  }

  /** How a request ends. Without a certificate it is refused. A known requester that is not adjacent to the node on any
      ring only has its note evaluated, and is refused unless it is accused. Any other requester is taken in, note
      included, if its certificate is accepted, and otherwise refused without any effect. */
  lemma SpreadExactly(cfg: Config, n: NodeState, certificate: Option<Certificate>, state: State)
    requires GoodConfig(cfg) && NodeInv(cfg, n)
    ensures var (n', outcome) := Spread(cfg, n, certificate, state);
      match certificate
      case None => n' == n && outcome == NoCertificate
      case Some(c) =>
        if c.id in n.full && !Adjacent(cfg, n, n.Me(), c.id)
        then
          && n' == EvalNote(cfg, n, state.ownNote).0
          && outcome == if IsAccused(n.full[c.id]) then Ok else NotMyNeighbour
        else if c.id != n.Me() && VouchedFor(cfg, c)
        then n' == EvalNote(cfg, EvalCertificate(cfg, n, c).0, state.ownNote).0 && outcome == Ok
        else n' == n && outcome != Ok
  {
    if certificate.Some? {
      var c := certificate.value;
      CertificateExactly(cfg, n, c);
      AdjacentIs(cfg, n, n.Me(), c.id);
    }
  }

  /** What a refused note is told: the first thing that is wrong, in the order signature present, sender known, newer
      than the stored note, enough rings active, signature valid. */
  lemma NoteRefusalsExactly(cfg: Config, n: NodeState, m: NoteMsg)
    requires NodeInv(cfg, n)
    ensures var outcome := EvalNote(cfg, n, m).1;
      var known := m.signature.Some? && m.id in n.full;
      var newer := known && (n.full[m.id].note.Some? ==> n.full[m.id].note.value.epoch < m.epoch);
      var enough := cfg.numRings - OnesCount(m.mask) <= MaxByz(cfg.numRings);
      var signed := m.signature == Some(Signature(m.id, NoteStatement(m.id, m.epoch, m.mask)));
      && (outcome == Ok <==> newer && enough && signed)
      && (outcome == NoPeer <==> m.signature.Some? && m.id !in n.full)
      && (outcome == OldNote <==> known && !newer)
      && (outcome == InvalidMask <==> newer && !enough)
      && (outcome == InvalidSignature <==> m.signature.None? || (newer && enough && !signed))
  {
    if m.id in n.full {
      assert EntryAt(cfg, n, m.id);
    }
  }

  /** In any state, consistent or not: an acceptable note is stored and empties exactly the slots of older accusations.
      If any accusation is left, that is all. If none is left, the peer is live, and it loses its timer if it was
      accused. */
  lemma NoteOnAnyRecord(cfg: Config, n: NodeState, m: NoteMsg)
    requires Acceptable(cfg, n, m) && n.full[m.id].certificate.id == m.id && WellPlaced(n.full[m.id].accusations)
    ensures var n' := EvalNote(cfg, n, m).0;
      var slots := n.full[m.id].accusations;
      var left := exists r :: r in slots && slots[r].Some? && slots[r].value.epoch >= m.epoch;
      && m.id in n'.full && n'.full[m.id].accusations.Keys == slots.Keys
      && n'.full[m.id].note == Some(Note(m.id, m.epoch, m.mask, m.signature.value))
      && (forall r :: r in slots ==>
           n'.full[m.id].accusations[r] == if slots[r].Some? && slots[r].value.epoch < m.epoch then None else slots[r])
      && n'.live == (if left then n.live else n.live + {m.id})
      && n'.timers == (if left || !IsAccused(n.full[m.id]) then n.timers else n.timers - {m.id})
  {
    var p := n.full[m.id];
    var p1 := Renewed(p, m);
    RenewedSlots(p, m);
    var n1 := n.Put(m.id, p1);
    AddLiveEffect(cfg, n1, m.id);
    AddLiveEffect(cfg, n1.(timers := n.timers - {m.id}), m.id);
  }

  lemma RenewedSlots(p: PeerState, m: NoteMsg)
    requires m.signature.Some? && WellPlaced(p.accusations) && Epoch(p) < m.epoch && p.certificate.id == m.id
    ensures var s := Renewed(p, m);
      && s.accusations.Keys == p.accusations.Keys && s.note == Some(Note(m.id, m.epoch, m.mask, m.signature.value))
      && (forall r :: r in p.accusations ==>
           var was := p.accusations[r];
           s.accusations[r] == if was.Some? && was.value.epoch < m.epoch then None else was)
  {
    forall r | r in p.accusations && p.accusations[r].Some? && p.accusations[r].value.epoch < m.epoch
      ensures Renewed(p, m).accusations[r] == None
    {
      assert p.accusations[r].value in PeerSpec.Accusations(p);
    }
  }
}
