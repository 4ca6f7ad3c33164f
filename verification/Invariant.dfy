/** What every step of a node keeps, and how a node's knowledge may change from one step to the next. */
module Invariant {
  import opened Types
  import opened Mask
  import opened OwnNote
  import opened PeerSpec
  import opened NodeSpec

  // ---------------------------------------------------------------------
  // The invariant
  // ---------------------------------------------------------------------

  /** An accusation sits in the slot of its own ring, is signed by its accuser, and names the epoch of the accused
      peer's current note; without a note there is none. */
  ghost predicate SlotOk(id: Id, note: Option<Note>, r: nat, slot: Option<Accusation>) {
    slot.Some? ==>
      && slot.value.ringNum == r && slot.value.accused == id && slot.value.Signed()
      && note.Some? && slot.value.epoch == note.value.epoch
  }

  ghost predicate NoteOk(cfg: Config, id: Id, note: Note) {
    note.id == id && note.Signed() && ValidMask(note.mask, cfg.numRings)
  }

  ghost predicate PeerOk(cfg: Config, id: Id, p: PeerState) {
    && p.certificate.id == id && Usable(p.certificate) && Trusted(cfg, p.certificate)
    && p.accusations.Keys == RingNums(cfg.numRings)
    && (p.note.Some? ==> NoteOk(cfg, id, p.note.value))
    && (forall r :: r in p.accusations ==> SlotOk(id, p.note, r, p.accusations[r]))
  }

  /** The node's own signatures: its notes are acceptable and have distinct epochs up to the current one. */
  ghost predicate SignedOk(numRings: nat, me: Id, note: Note, signed: set<Signature>) {
    && note.signature in signed
    && (forall s :: s in signed ==> s.signer == me)
    && (forall s :: s in signed && s.statement.NoteStatement? ==>
         s.statement.id == me && s.statement.epoch <= note.epoch && ValidMask(s.statement.mask, numRings))
    && (forall s, t | s in signed && t in signed && s.statement.NoteStatement? && t.statement.NoteStatement? ::
         s.statement.epoch == t.statement.epoch ==> s == t)
  }

  /** Every request carries a note the node has signed. */
  ghost predicate SentOk(signed: set<Signature>, sent: seq<Request>) {
    forall i :: 0 <= i < |sent| ==>
      sent[i].state.ownNote.signature.Some? && sent[i].state.ownNote.signature.value in signed
  }

  ghost predicate SelfOk(cfg: Config, n: NodeState) {
    && n.note == SelfNote(n.Me(), n.note.epoch, n.note.mask)
    && Sound(OwnOf(n), cfg.numRings)
    && SignedOk(cfg.numRings, n.Me(), n.note, n.signed) && SentOk(n.signed, n.sent)
    && IsRing(n.gossipRing, cfg.numRings) && IsRing(n.monitorRing, cfg.numRings)
  }

  function TimerOf(n: NodeState, q: Id): Option<Timer> {
    if q in n.timers then Some(n.timers[q]) else None
  }

  /** What a node knows about one peer is consistent: only a live peer is timed, and a live accused peer always is. */
  ghost predicate EntryOk(cfg: Config, q: Id, p: PeerState, live: bool, timer: Option<Timer>) {
    && PeerOk(cfg, q, p)
    && (live && IsAccused(p) ==> timer.Some?)
    && (timer.Some? ==>
         && live && timer.value.accused == q && p.note.Some?
         && timer.value.lastNote.id == q && timer.value.lastNote.epoch <= p.note.value.epoch)
  }

  ghost predicate EntryAt(cfg: Config, n: NodeState, q: Id) {
    q in n.full ==> EntryOk(cfg, q, n.full[q], q in n.live, TimerOf(n, q))
  }

  /** The consistency of a node. It is in neither of its own views. */
  ghost predicate NodeInv(cfg: Config, n: NodeState) {
    && SelfOk(cfg, n)
    && n.Me() !in n.full
    && n.live <= n.full.Keys && n.timers.Keys <= n.full.Keys
    && forall q :: EntryAt(cfg, n, q)
  }

  // ---------------------------------------------------------------------
  // How knowledge evolves
  // ---------------------------------------------------------------------

  /** The epoch a node knows for a peer; no note counts as less than any epoch. */
  function Epoch(p: PeerState): (e: int)
    ensures e >= -1
  {
    if p.note.None? then -1 else p.note.value.epoch
  }

  /** A peer is never forgotten, its epoch never falls, and a peer that was out comes back only with a strictly newer
      note. */
  ghost predicate PeerEvolves(n: NodeState, n': NodeState, q: Id) {
    q in n.full ==>
      && q in n'.full
      && n'.full[q].certificate == n.full[q].certificate
      && Epoch(n.full[q]) <= Epoch(n'.full[q])
      && (q in n'.live && q !in n.live ==> Epoch(n.full[q]) < Epoch(n'.full[q]))
  }

  ghost predicate Evolves(n: NodeState, n': NodeState) {
    && n'.certificate == n.certificate
    && n.note.epoch <= n'.note.epoch
    && n.signed <= n'.signed
    && n.sent <= n'.sent
    && forall q :: PeerEvolves(n, n', q)
  }

  lemma EvolvesTrans(a: NodeState, b: NodeState, c: NodeState)
    requires Evolves(a, b) && Evolves(b, c)
    ensures Evolves(a, c)
  {
    forall q ensures PeerEvolves(a, c, q) {
      assert PeerEvolves(a, b, q) && PeerEvolves(b, c, q);
    }
  }

  // ---------------------------------------------------------------------
  // The elementary updates
  // ---------------------------------------------------------------------

  /** Changing what is known about one peer. */
  lemma EntryKeeps(cfg: Config, n: NodeState, n': NodeState, p: Id)
    requires NodeInv(cfg, n) && p != n.Me()
    requires n' == n.(full := n'.full, live := n'.live, timers := n'.timers)
    requires p in n'.full && n'.full == n.full[p := n'.full[p]]
    requires n'.live == n.live || n'.live == n.live + {p} || n'.live == n.live - {p}
    requires forall q :: q != p ==> TimerOf(n', q) == TimerOf(n, q)
    requires EntryAt(cfg, n', p) && PeerEvolves(n, n', p)
    ensures NodeInv(cfg, n') && Evolves(n, n')
  {
    forall q ensures EntryAt(cfg, n', q) && PeerEvolves(n, n', q) {
      assert EntryAt(cfg, n, q);
    }
    forall q | q in n'.timers ensures q in n'.full {
      assert q != p ==> TimerOf(n', q) == TimerOf(n, q);
    }
  }

  lemma PruneKeeps(cfg: Config, before: set<Id>, p: Id, q: Id, s: PeerState)
    requires PeerOk(cfg, q, s)
    ensures var s' := Prune(cfg, before, p, q, s);
      PeerOk(cfg, q, s') && s'.note == s.note && s'.certificate == s.certificate && (IsAccused(s') ==> IsAccused(s))
  {
  }

  /** Joining changes the live view and prunes accusations of peers that were live; the rest stays. */
  lemma AddLiveEffect(cfg: Config, n: NodeState, p: Id)
    requires p in n.full
    ensures var n' := AddLive(cfg, n, p);
      && n' == n.(live := n.live + {p}, full := n'.full)
      && n'.full.Keys == n.full.Keys && n'.full[p] == n.full[p]
      && forall q :: q in n.full ==> n'.full[q] == n.full[q] || n'.full[q] == Prune(cfg, n.Members(), p, q, n.full[q])
  {
    assert p in n.live ==> n.live + {p} == n.live;
  }

  /** Joining keeps the invariant once the peer may be considered live. */
  lemma AddLiveKeeps(cfg: Config, n: NodeState, p: Id)
    requires p in n.full && NodeInv(cfg, n.(live := n.live + {p}))
    ensures NodeInv(cfg, AddLive(cfg, n, p)) && Evolves(n.(live := n.live + {p}), AddLive(cfg, n, p))
  {
    var n1, n' := n.(live := n.live + {p}), AddLive(cfg, n, p);
    AddLiveEffect(cfg, n, p);
    forall q ensures EntryAt(cfg, n', q) && PeerEvolves(n1, n', q) {
      assert EntryAt(cfg, n1, q);
      if q in n1.full {
        PruneKeeps(cfg, n.Members(), p, q, n1.full[q]);
      }
    }
  }

  /** A peer with a newer note and no accusation against it may be considered live. */
  lemma JoinKeeps(cfg: Config, n: NodeState, p: Id, s: PeerState, timers: map<Id, Timer>)
    requires NodeInv(cfg, n) && p in n.full && PeerOk(cfg, p, s) && !IsAccused(s)
    requires s.certificate == n.full[p].certificate && Epoch(n.full[p]) < Epoch(s)
    requires timers == n.timers || timers == n.timers - {p}
    ensures var n' := n.(full := n.full[p := s], live := n.live + {p}, timers := timers);
      NodeInv(cfg, n') && Evolves(n, n')
  {
    assert EntryAt(cfg, n, p);
    EntryKeeps(cfg, n, n.(full := n.full[p := s], live := n.live + {p}, timers := timers), p);
  }

  // ---------------------------------------------------------------------
  // The handlers
  // ---------------------------------------------------------------------

  lemma EvalCertificateKeeps(cfg: Config, n: NodeState, c: Certificate)
    requires NodeInv(cfg, n) && cfg.numRings >= 1
    ensures var (n', outcome) := EvalCertificate(cfg, n, c);
      && NodeInv(cfg, n') && Evolves(n, n')
      && (outcome == Ok && Usable(c) ==> c.id in n'.full)
  {
    var n' := EvalCertificate(cfg, n, c).0;
    if n' != n {
      EntryKeeps(cfg, n, n', c.id);
    }
  }

  /** By the invariant every stored accusation carries the epoch of the stored note, so a newer note clears all. */
  lemma InvalidateClears(cfg: Config, id: Id, p: PeerState, epoch: nat)
    requires PeerOk(cfg, id, p) && Epoch(p) < epoch
    ensures !IsAccused(Invalidate(p, epoch))
  {
    forall r | r in p.accusations && p.accusations[r].Some?
      ensures Invalidate(p, epoch).accusations[r].None?
    {
      var a := p.accusations[r].value;
      assert SlotOk(id, p.note, r, p.accusations[r]);
      assert a in Accusations(p) && a.IsMoreRecent(epoch);
    }
  }

  /** The record a peer has after its note was accepted. */
  ghost function Renewed(p: PeerState, m: NoteMsg): PeerState
    requires m.signature.Some?
  {
    AddNote(if IsAccused(p) then Invalidate(p, m.epoch) else p, m.mask, m.epoch, m.signature.value)
  }

  /** A note is accepted exactly when it is signed by a known peer, newer than what is stored, and has a valid mask. */
  ghost predicate Acceptable(cfg: Config, n: NodeState, m: NoteMsg) {
    && m.signature.Some? && m.id in n.full
    && Epoch(n.full[m.id]) < m.epoch
    && ValidMask(m.mask, cfg.numRings)
    && Verify(NoteStatement(m.id, m.epoch, m.mask), m.signature.value, m.id)
  }

  lemma RenewedOk(cfg: Config, p: PeerState, m: NoteMsg)
    requires PeerOk(cfg, m.id, p) && m.signature.Some? && Epoch(p) < m.epoch && ValidMask(m.mask, cfg.numRings)
    requires Verify(NoteStatement(m.id, m.epoch, m.mask), m.signature.value, m.id)
    ensures var s := Renewed(p, m);
      && PeerOk(cfg, m.id, s) && !IsAccused(s) && s.certificate == p.certificate
      && s.note == Some(Note(m.id, m.epoch, m.mask, m.signature.value))
  {
    if IsAccused(p) {
      InvalidateClears(cfg, m.id, p, m.epoch);
    }
  }

  /** What the note handler does: an acceptable note is stored, clears every accusation and makes the peer live; if
      the peer was accused its timer goes too. Anything else changes nothing. */
  lemma EvalNoteEffect(cfg: Config, n: NodeState, m: NoteMsg)
    requires NodeInv(cfg, n)
    ensures var (n', outcome) := EvalNote(cfg, n, m);
      && (outcome == Ok <==> Acceptable(cfg, n, m))
      && (outcome != Ok ==> n' == n)
      && (outcome == Ok ==>
           && n'.live == n.live + {m.id} && n'.full.Keys == n.full.Keys
           && n'.full[m.id] == Renewed(n.full[m.id], m) && !IsAccused(n'.full[m.id])
           && n'.full[m.id].note == Some(Note(m.id, m.epoch, m.mask, m.signature.value))
           && n'.timers == if IsAccused(n.full[m.id]) then n.timers - {m.id} else n.timers)
  {
    if m.id in n.full {
      assert EntryAt(cfg, n, m.id);
    }
    if Acceptable(cfg, n, m) {
      var p := n.full[m.id];
      RenewedOk(cfg, p, m);
      var n1 := n.Put(m.id, Renewed(p, m));
      AddLiveEffect(cfg, n1, m.id);
      AddLiveEffect(cfg, n1.(timers := n.timers - {m.id}), m.id);
    }
  }

  /** A node with an accepted note on record, before its sender joins. */
  ghost function Noted(n: NodeState, m: NoteMsg): NodeState
    requires m.id in n.full && m.signature.Some?
  {
    n.Put(m.id, Renewed(n.full[m.id], m)).(timers := if IsAccused(n.full[m.id]) then n.timers - {m.id} else n.timers)
  }

  /** Accepting a note is putting it on record and then letting its sender join. */
  lemma EvalNoteIsJoin(cfg: Config, n: NodeState, m: NoteMsg)
    requires NodeInv(cfg, n) && Acceptable(cfg, n, m)
    ensures EvalNote(cfg, n, m).0 == AddLive(cfg, Noted(n, m), m.id)
    ensures !IsAccused(Noted(n, m).full[m.id])
    ensures m.id !in n.live ==> Noted(n, m).timers == n.timers
  {
    assert EntryAt(cfg, n, m.id);
    RenewedOk(cfg, n.full[m.id], m);
    if m.id !in n.live {
      assert m.id !in n.timers;
      assert n.timers - {m.id} == n.timers;
    }
  }

  lemma EvalNoteKeeps(cfg: Config, n: NodeState, m: NoteMsg)
    requires NodeInv(cfg, n)
    ensures NodeInv(cfg, EvalNote(cfg, n, m).0) && Evolves(n, EvalNote(cfg, n, m).0)
  {
    EvalNoteEffect(cfg, n, m);
    if Acceptable(cfg, n, m) {
      var p := n.full[m.id];
      assert EntryAt(cfg, n, m.id);
      RenewedOk(cfg, p, m);
      var n1 := n.Put(m.id, Renewed(p, m)).(timers := if IsAccused(p) then n.timers - {m.id} else n.timers);
      JoinKeeps(cfg, n, m.id, Renewed(p, m), n1.timers);
      AddLiveKeeps(cfg, n1, m.id);
      EvolvesTrans(n, n1.(live := n1.live + {m.id}), AddLive(cfg, n1, m.id));
    }
  }
}
