/** One gossip exchange: what the requester is sure to learn, and what it never learns this way. */
module GossipExchange {
  import opened Types
  import opened Mask
  import opened PeerSpec
  import opened NodeSpec
  import opened Protocol
  import opened Invariant
  import opened Steps

  /** Every trusted, usable certificate in a reply ends up in the full view. */
  lemma {:induction false} CertificateIsMerged(cfg: Config, n: NodeState, cs: seq<Certificate>, i: nat)
    requires GoodConfig(cfg) && NodeInv(cfg, n)
    requires i < |cs| && Trusted(cfg, cs[i]) && Usable(cs[i]) && cs[i].id != n.Me()
    ensures cs[i].id in MergeCertificates(cfg, n, cs).full
  {
    var rest := cs[..|cs| - 1];
    var before := MergeCertificates(cfg, n, rest);
    MergeCertificatesKeeps(cfg, n, rest);
    EvalCertificateKeeps(cfg, before, cs[|cs| - 1]);
    if i < |cs| - 1 {
      CertificateIsMerged(cfg, n, rest, i);
      assert PeerEvolves(before, MergeCertificates(cfg, n, cs), cs[i].id);
    }
  }

  /** Every valid note in a reply about a known peer leaves that peer at its epoch or a later one. */
  lemma {:induction false} NoteIsMerged(cfg: Config, n: NodeState, ms: seq<NoteMsg>, i: nat)
    requires GoodConfig(cfg) && NodeInv(cfg, n)
    requires i < |ms| && ms[i].id in n.full && ms[i].signature.Some? && ValidMask(ms[i].mask, cfg.numRings)
    requires Verify(NoteStatement(ms[i].id, ms[i].epoch, ms[i].mask), ms[i].signature.value, ms[i].id)
    ensures ms[i].id in MergeNotes(cfg, n, ms).full && ms[i].epoch <= Epoch(MergeNotes(cfg, n, ms).full[ms[i].id])
  {
    var rest := ms[..|ms| - 1];
    var before := MergeNotes(cfg, n, rest);
    var id := ms[i].id;
    MergeNotesKeeps(cfg, n, rest);
    assert PeerEvolves(n, before, id);
    EvalNoteKeeps(cfg, before, ms[|ms| - 1]);
    EvalNoteEffect(cfg, before, ms[|ms| - 1]);
    if i < |ms| - 1 {
      NoteIsMerged(cfg, n, rest, i);
      assert PeerEvolves(before, MergeNotes(cfg, n, ms), id);
    }
  }

  /** The requester's record of `q` is at least as recent as the responder's. */
  ghost predicate CaughtUp(q: Id, theirs: PeerState, mine: NodeState) {
    q in mine.full && Epoch(theirs) <= Epoch(mine.full[q])
  }

  /** An unreported host's certificate reaches the requester's full view. */
  lemma HostIsKnown(cfg: Config, r: NodeState, q: NodeState, given: map<Id, nat>, reply: Reply, host: Id)
    requires GoodConfig(cfg) && NodeInv(cfg, r) && NodeInv(cfg, q) && IsMerge(r, given, reply)
    requires host in r.full && host !in given && host != q.Me()
    ensures host in MergeCertificates(cfg, q, reply.certificates).full
  {
    assert EntryAt(cfg, r, host);
    var c := r.full[host].certificate;
    assert c in MissingCertificates(r, given);
    assert c in ToSet(reply.certificates);
    var i :| 0 <= i < |reply.certificates| && reply.certificates[i] == c;
    CertificateIsMerged(cfg, q, reply.certificates, i);
  }

  /** A note in the reply about a peer the requester knows brings it up to date. */
  lemma NoteIsLearned(cfg: Config, q: NodeState, notes: seq<NoteMsg>, id: Id, note: Note)
    requires GoodConfig(cfg) && NodeInv(cfg, q) && id in q.full && NoteOk(cfg, id, note) && note.ToMsg() in ToSet(notes)
    ensures id in MergeNotes(cfg, q, notes).full && note.epoch <= Epoch(MergeNotes(cfg, q, notes).full[id])
  {
    var k :| 0 <= k < |notes| && notes[k] == note.ToMsg();
    NoteIsMerged(cfg, q, notes, k);
  }

  /** One host of the responder that the requester had not reported. */
  lemma HostIsLearned(cfg: Config, r: NodeState, q: NodeState, given: map<Id, nat>, reply: Reply, now: int, host: Id)
    requires GoodConfig(cfg) && NodeInv(cfg, r) && NodeInv(cfg, q) && IsMerge(r, given, reply)
    requires host in r.full && host !in given && host != q.Me()
    ensures CaughtUp(host, r.full[host], MergeReply(cfg, q, reply, now))
  {
    HostIsKnown(cfg, r, q, given, reply, host);
    var q1 := MergeCertificates(cfg, q, reply.certificates);
    MergeCertificatesKeeps(cfg, q, reply.certificates);
    var q2 := MergeNotes(cfg, q1, reply.notes);
    MergeNotesKeeps(cfg, q1, reply.notes);
    assert PeerEvolves(q1, q2, host);
    var note := r.full[host].note;
    if note.Some? {
      assert EntryAt(cfg, r, host);
      assert note.value.ToMsg() in SelectedNotes(r, given);
      NoteIsLearned(cfg, q1, reply.notes, host, note.value);
    }
    assert Epoch(r.full[host]) <= Epoch(q2.full[host]);
    MergeAccusationsKeeps(cfg, q2, reply.accusations, now);
    assert PeerEvolves(q2, MergeReply(cfg, q, reply, now), host);
  }

  /** After one exchange between neighbours, every host in the responder's full view that the requester had not
      reported is in the requester's full view, at an epoch no older than the responder's. */
  lemma ExchangeTeaches(cfg: Config, r: NodeState, c: Certificate, state: State, reply: Reply, q: NodeState, now: int)
    requires GoodConfig(cfg) && NodeInv(cfg, r) && NodeInv(cfg, q) && state.hosts != map[]
    requires Spread(cfg, r, Some(c), state).1 == Ok && ShouldBeNeighbour(cfg, r, c.id)
    requires SpreadReply(cfg, r, c, state, reply)
    ensures var r' := Spread(cfg, r, Some(c), state).0;
      forall host :: host in r'.full && host !in state.hosts && host != q.Me() ==>
        CaughtUp(host, r'.full[host], MergeReply(cfg, q, reply, now))
  {
    var r' := Spread(cfg, r, Some(c), state).0;
    SpreadKeeps(cfg, r, Some(c), state);
    forall host | host in r'.full && host !in state.hosts && host != q.Me()
      ensures CaughtUp(host, r'.full[host], MergeReply(cfg, q, reply, now))
    {
      HostIsLearned(cfg, r', q, state.hosts, reply, now, host);
    }
  }

  /** The responder itself is learned too when the requester knows its certificate but did not report it. */
  lemma ResponderIsLearned(cfg: Config, r: NodeState, q: NodeState, given: map<Id, nat>, reply: Reply, now: int)
    requires GoodConfig(cfg) && NodeInv(cfg, r) && NodeInv(cfg, q) && IsMerge(r, given, reply)
    requires r.Me() in q.full && r.Me() !in given
    ensures r.Me() in MergeReply(cfg, q, reply, now).full
    ensures r.note.epoch <= Epoch(MergeReply(cfg, q, reply, now).full[r.Me()])
  {
    var q1 := MergeCertificates(cfg, q, reply.certificates);
    var q2 := MergeNotes(cfg, q1, reply.notes);
    MergeCertificatesKeeps(cfg, q, reply.certificates);
    MergeNotesKeeps(cfg, q1, reply.notes);
    MergeAccusationsKeeps(cfg, q2, reply.accusations, now);
    ConfinedMask(r.note.mask, cfg.numRings);
    assert PeerEvolves(q, q1, r.Me());
    assert r.note.ToMsg() in ToSet(reply.notes);
    NoteIsLearned(cfg, q1, reply.notes, r.Me(), r.note);
    assert PeerEvolves(q2, MergeReply(cfg, q, reply, now), r.Me());
  }

  /** A requester that reports no host at all is taken for a rebuttal and learns nothing from a neighbour. */
  lemma EmptyReportTeachesNothing(cfg: Config, r: NodeState, c: Certificate, note: NoteMsg, reply: Reply,
                                  q: NodeState, now: int)
    requires GoodConfig(cfg) && ShouldBeNeighbour(cfg, r, c.id) && SpreadReply(cfg, r, c, State(map[], note), reply)
    ensures MergeReply(cfg, q, reply, now) == q
  {
  }

  /** The epoch a requester reported for a host; nothing reported counts as less than any epoch. */
  function Reported(given: map<Id, nat>, host: Id): int {
    if host in given then given[host] else -1
  }

  /** A reply offers a note newer than the reported epoch exactly for the hosts that were not reported. For a reported
      host the epoch test selects only notes that are older than what the requester already has. */
  lemma CatchUpExactly(cfg: Config, r: NodeState, given: map<Id, nat>, host: Id)
    requires NodeInv(cfg, r) && host in r.full && r.full[host].note.Some?
    ensures (exists m :: m in SelectedNotes(r, given) && m.id == host && m.epoch > Reported(given, host)) <==>
      host !in given
  {
    assert EntryAt(cfg, r, host);
    if host !in given {
      assert r.full[host].note.value.ToMsg() in SelectedNotes(r, given);
    } else {
      forall m | m in SelectedNotes(r, given) && m.id == host ensures m.epoch < given[host] {
        StaleSelection(cfg, r, given, m);
      }
    }
  }

  lemma StaleSelection(cfg: Config, r: NodeState, given: map<Id, nat>, m: NoteMsg)
    requires NodeInv(cfg, r) && m in SelectedNotes(r, given) && m.id in given
    ensures m.epoch < given[m.id]
  {
    forall x | x in r.full && r.full[x].note.Some? ensures r.full[x].note.value.id == x {
      assert EntryAt(cfg, r, x);
    }
  }

  /** With the report a requester really sends: the reply offers a newer note exactly for the hosts that the requester
      knows nobody under the name of. It brings a host the requester knows up to date only if that host's id is not
      valid UTF-8, so that the report misnames it. */
  lemma UpdateExactly(cfg: Config, r: NodeState, q: NodeState, clean: Id -> Id, given: map<Id, nat>, host: Id)
    requires NodeInv(cfg, r) && IsReport(q, clean, given) && host in r.full && r.full[host].note.Some?
    ensures (exists m :: m in SelectedNotes(r, given) && m.id == host && m.epoch > Reported(given, host))
      <==> forall x :: x in q.full ==> clean(x) != host
  {
    CatchUpExactly(cfg, r, given, host);
    assert host in given.Keys <==> exists x :: x in q.full && clean(x) == host;
  }
}
