/** Building the answers to gossip requests, and the report of known hosts a request carries. */
module Replies {
  import opened Types
  import opened PeerSpec
  import opened Peers
  import opened Views
  import Protocol

  /** The state as if only the peers in `done` were known. */
  ghost function Part(n: NodeState, done: set<Id>): NodeState {
    n.(full := map q | q in n.full && q in done :: n.full[q])
  }

  ghost function NoteFor(p: PeerState, q: Id, given: map<Id, nat>): set<NoteMsg> {
    if p.note.Some? && Protocol.Selected(p.note.value, q, given) then {p.note.value.ToMsg()} else {}
  }

  ghost function Messages(all: set<Accusation>): set<AccusationMsg> {
    set a | a in all :: a.ToMsg()
  }

  lemma ToSetAppend<T>(s: seq<T>, x: T)
    ensures ToSet(s + [x]) == ToSet(s) + {x}
  {
  }

  /** A reply holds what the merge sends about the peers in `done`. */
  ghost predicate Merged(n: NodeState, given: map<Id, nat>, done: set<Id>, reply: Reply) {
    && ToSet(reply.certificates) == Protocol.MissingCertificates(Part(n, done), given)
    && ToSet(reply.notes) == Protocol.PeerNotes(Part(n, done), given)
    && ToSet(reply.accusations) == Protocol.AllAccusations(Part(n, done))
  }

  /** `r` extends `reply` by what the requester lacks about the peer `q` with record `p`. */
  ghost predicate Extends(p: PeerState, q: Id, given: map<Id, nat>, reply: Reply, r: Reply) {
    && ToSet(r.certificates) == ToSet(reply.certificates) + (if q in given then {} else {p.certificate})
    && ToSet(r.notes) == ToSet(reply.notes) + NoteFor(p, q, given)
    && ToSet(r.accusations) == ToSet(reply.accusations) + Messages(Accusations(p))
  }

  lemma CertificatesOneMore(n: NodeState, given: map<Id, nat>, done: set<Id>, q: Id)
    requires q in n.full
    ensures Protocol.MissingCertificates(Part(n, done + {q}), given) ==
      Protocol.MissingCertificates(Part(n, done), given) + if q in given then {} else {n.full[q].certificate}
  {
  }

  lemma NotesOneMore(n: NodeState, given: map<Id, nat>, done: set<Id>, q: Id)
    requires q in n.full
    ensures Protocol.PeerNotes(Part(n, done + {q}), given) ==
      Protocol.PeerNotes(Part(n, done), given) + NoteFor(n.full[q], q, given)
  {
    var less, more := Part(n, done), Part(n, done + {q});
    forall m | m in Protocol.PeerNotes(less, given) ensures m in Protocol.PeerNotes(more, given) {
      var x :| x in less.full && less.full[x].note.Some? && Protocol.Selected(less.full[x].note.value, x, given)
               && less.full[x].note.value.ToMsg() == m;
      assert more.full[x] == less.full[x];
    }
    assert more.full[q] == n.full[q];
  }

  lemma AccusationsOneMore(n: NodeState, done: set<Id>, q: Id)
    requires q in n.full
    ensures Protocol.AllAccusations(Part(n, done + {q})) ==
      Protocol.AllAccusations(Part(n, done)) + Messages(Accusations(n.full[q]))
  {
    var less, more := Part(n, done), Part(n, done + {q});
    forall m | m in Protocol.AllAccusations(less) ensures m in Protocol.AllAccusations(more) {
      var x, a :| x in less.full && a in Accusations(less.full[x]) && a.ToMsg() == m;
      assert more.full[x] == less.full[x];
    }
    assert more.full[q] == n.full[q];
  }

  lemma MergeOneMore(n: NodeState, given: map<Id, nat>, done: set<Id>, q: Id, reply: Reply, r: Reply)
    requires q in n.full && Merged(n, given, done, reply) && Extends(n.full[q], q, given, reply, r)
    ensures Merged(n, given, done + {q}, r)
  {
    CertificatesOneMore(n, given, done, q);
    NotesOneMore(n, given, done, q);
    AccusationsOneMore(n, done, q);
  }

  method AppendAccusations(ms: seq<AccusationMsg>, all: seq<Accusation>) returns (r: seq<AccusationMsg>)
    ensures ToSet(r) == ToSet(ms) + Messages(ToSet(all))
  {
    r := ms;
    var i := 0;
    while i < |all|
      invariant 0 <= i <= |all|
      invariant ToSet(r) == ToSet(ms) + Messages(ToSet(all[..i]))
    {
      assert all[..i + 1] == all[..i] + [all[i]];
      ToSetAppend(all[..i], all[i]);
      ToSetAppend(r, all[i].ToMsg());
      assert Messages(ToSet(all[..i]) + {all[i]}) == Messages(ToSet(all[..i])) + {all[i].ToMsg()};
      r := r + [all[i].ToMsg()];
      i := i + 1;
    }
    assert all[..i] == all;
  }

  /** Adds what the requester lacks about one peer: its certificate when the peer was not reported, its note when the
      epoch test selects it, and every accusation. */
  method MergePeer(p: Peer, given: map<Id, nat>, reply: Reply) returns (r: Reply)
    ensures Extends(p.State(), p.certificate.id, given, reply, r)
  {
    var certificates, notes := reply.certificates, reply.notes;
    if p.certificate.id !in given {
      certificates := certificates + [p.certificate];
      if p.note.Some? {
        notes := notes + [p.note.value.ToMsg()];
      }
    } else if p.note.Some? && p.note.value.IsMoreRecent(given[p.certificate.id]) {
      notes := notes + [p.note.value.ToMsg()];
    }
    var all := p.AllAccusations();
    var accusations := AppendAccusations(reply.accusations, all);
    r := Reply(certificates, notes, accusations);
  }

  /** Merges what is known about the peers into a reply, visiting them in any order. */
  method MergePeers(view: View, given: map<Id, nat>) returns (reply: Reply)
    requires view.Valid()
    ensures Merged(view.Abs(), given, view.viewMap.Keys, reply)
  {
    ghost var n := view.Abs();
    var peers := view.viewMap;
    reply := EMPTY_REPLY;
    var todo := peers.Keys;
    ghost var done: set<Id> := {};
    while todo != {}
      invariant todo <= peers.Keys && done == peers.Keys - todo && Merged(n, given, done, reply)
      decreases todo
    {
      var q :| q in todo;
      ghost var before := reply;
      reply := MergePeer(peers[q], given, reply);
      MergeOneMore(n, given, done, q, before, reply);
      todo := todo - {q};
      done := done + {q};
    }
    assert done == view.viewMap.Keys;
  }

  /** Merges the whole view into a reply. */
  method MergeViews(view: View, given: map<Id, nat>) returns (reply: Reply)
    requires view.Valid()
    ensures view.Valid() && Protocol.IsMerge(view.Abs(), given, reply)
  {
    reply := MergePeers(view, given);
    assert Part(view.Abs(), view.viewMap.Keys) == view.Abs();
    var own := view.self.note.value;
    if view.Me() !in given || own.IsMoreRecent(given[view.Me()]) {
      ToSetAppend(reply.notes, own.ToMsg());
      reply := reply.(notes := reply.notes + [own.ToMsg()]);
    }
  }

  /** Tells a peer everything it is accused of. */
  method ReportAccusations(view: View, id: Id) returns (reply: Reply)
    requires view.Valid() && id in view.viewMap
    ensures view.Valid() && Protocol.IsAccusationReport(view.Abs().full[id], reply)
  {
    var all := view.viewMap[id].AllAccusations();
    var accusations := AppendAccusations([], all);
    reply := Reply([], [], accusations);
  }

  /** One more party is introduced. */
  lemma IntroduceOneMore(n: NodeState, known: set<Id>, q: Id, reply: Reply, certificates: seq<Certificate>,
                         notes: seq<NoteMsg>)
    requires forall x :: x in known + {q} ==> x == n.Me() || x in n.full
    requires Protocol.Introduces(n, known, reply)
    requires certificates == reply.certificates + [Protocol.CertificateOf(n, q)]
    requires notes == reply.notes + match Protocol.NoteOf(n, q) case None => [] case Some(note) => [note.ToMsg()]
    ensures Protocol.Introduces(n, known + {q}, Reply(certificates, notes, reply.accusations))
  {
    ToSetAppend(reply.certificates, Protocol.CertificateOf(n, q));
    if Protocol.NoteOf(n, q).Some? {
      ToSetAppend(reply.notes, Protocol.NoteOf(n, q).value.ToMsg());
    } else {
      assert notes == reply.notes;
    }
  }

  /** Adds the certificate of a party, and its note if there is one. */
  method IntroduceParty(view: View, q: Id, reply: Reply, ghost known: set<Id>) returns (r: Reply)
    requires view.Valid() && forall x :: x in known + {q} ==> x == view.Me() || x in view.viewMap
    requires Protocol.Introduces(view.Abs(), known, reply)
    ensures Protocol.Introduces(view.Abs(), known + {q}, r) && r.accusations == reply.accusations
  {
    var p := if q == view.Me() then view.self else view.viewMap[q];
    var certificates := reply.certificates + [p.certificate];
    var notes := reply.notes + match p.note case None => [] case Some(note) => [note.ToMsg()];
    IntroduceOneMore(view.Abs(), known, q, reply, certificates, notes);
    r := Reply(certificates, notes, reply.accusations);
  }

  method IntroduceAll(view: View, ids: seq<Id>) returns (reply: Reply)
    requires view.Valid() && forall x :: x in ToSet(ids) ==> x == view.Me() || x in view.viewMap
    ensures Protocol.Introduces(view.Abs(), {view.Me()} + ToSet(ids), reply) && reply.accusations == []
  {
    reply := Reply([view.self.certificate], [view.self.note.value.ToMsg()], []);
    ghost var known := {view.Me()};
    var i := 0;
    while i < |ids|
      invariant 0 <= i <= |ids| && known == {view.Me()} + ToSet(ids[..i]) && reply.accusations == []
      invariant forall x :: x in known ==> x == view.Me() || x in view.viewMap
      invariant Protocol.Introduces(view.Abs(), known, reply)
    {
      assert ids[i] in ToSet(ids);
      reply := IntroduceParty(view, ids[i], reply, known);
      assert ids[..i + 1] == ids[..i] + [ids[i]];
      ToSetAppend(ids[..i], ids[i]);
      known := known + {ids[i]};
      i := i + 1;
    }
    assert ids[..i] == ids;
  }

  /** Introduces a newcomer to this node and to the newcomer's neighbours on all rings. */
  method Introduce(view: View, remote: Id) returns (reply: Reply)
    requires view.Valid()
    ensures view.Valid() && Protocol.IsIntroduction(view.cfg, view.Abs(), remote, reply)
  {
    var ids := view.FindNeighbours(remote);
    reply := IntroduceAll(view, ids);
  }

  /** The gossip request of a node: what it knows about every host, and its own note. */
  method Report(view: View, clean: Id -> Id) returns (state: State)
    requires view.Valid()
    ensures view.Valid()
    ensures Protocol.IsReport(view.Abs(), clean, state.hosts) && state.ownNote == view.Abs().note.ToMsg()
  {
    var hosts: map<Id, nat> := map[];
    var todo := view.viewMap.Keys;
    ghost var full := view.Full();
    while todo != {}
      invariant todo <= view.viewMap.Keys
      invariant hosts.Keys == set q | q in full && q !in todo :: clean(q)
      invariant forall h :: h in hosts ==>
        exists q :: q in full && clean(q) == h && hosts[h] == Protocol.ReportedEpoch(full[q])
      decreases todo
    {
      var q :| q in todo;
      var note := view.viewMap[q].note;
      hosts := hosts[clean(q) := if note.Some? then note.value.epoch else 0];
      todo := todo - {q};
    }
    state := State(hosts, view.self.note.value.ToMsg());
  }
}
