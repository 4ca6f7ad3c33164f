/** The mutable view of a node: peers, live peers, timers, rings and the node's own note. */
module Views {
  import opened Types
  import opened Mask
  import opened OwnNote
  import opened Circle
  import opened PeerSpec
  import NodeSpec
  import Protocol
  import opened RingSets
  import opened Peers

  type Config = NodeSpec.Config
  type NodeState = NodeSpec.NodeState
  type Timer = NodeSpec.Timer
  type Request = NodeSpec.Request

  // ---------------------------------------------------------------------
  // Pruning, ring by ring
  // ---------------------------------------------------------------------

  /** A peer record after the rings in `done` have been looked at for the newcomer `p`. */
  ghost function Pruned(cfg: Config, before: set<Id>, p: Id, q: Id, s: PeerState, done: set<nat>): PeerState {
    s.(accusations := map r | r in s.accusations ::
      if r in done && NodeSpec.OutOfDate(cfg, before, p, q, r, s.accusations[r]) then None else s.accusations[r])
  }

  ghost predicate NamesAccuser(s: PeerState, r: nat, accuser: Id) {
    r in s.accusations && s.accusations[r].Some? && s.accusations[r].value.accuser == accuser
  }

  /** The records after the accusation of a newcomer's successor by its predecessor on ring `r` was cleared. */
  ghost function Cleared(full: map<Id, PeerState>, r: nat, around: (Id, Id)): map<Id, PeerState> {
    if around.0 in full && NamesAccuser(full[around.0], r, around.1)
    then full[around.0 := ClearRing(full[around.0], r)] else full
  }

  /** Comparing with the newcomer's two neighbours finds exactly the accusation it has put out of date. */
  lemma PruneDecision(cfg: Config, before: set<Id>, p: Id, around: (Id, Id), q: Id, r: nat, s: PeerState)
    requires Injective(cfg.hash) && IsRing(r, cfg.numRings) && p !in before && r in s.accusations
    requires IsAround(cfg.hash, r, before, p, around)
    ensures NodeSpec.OutOfDate(cfg, before, p, q, r, s.accusations[r]) <==>
      q == around.0 && NamesAccuser(s, r, around.1)
  {
    if q in before {
      NeighbourUnique(cfg.hash, r, before + {p}, p, q, around.0);
    }
    if s.accusations[r].Some? && s.accusations[r].value.accuser in before {
      NeighbourUnique(cfg.hash, r, before + {p}, p, s.accusations[r].value.accuser, around.1);
    }
  }

  ghost function AllPruned(cfg: Config, before: set<Id>, p: Id, full: map<Id, PeerState>,
                           done: set<nat>): map<Id, PeerState> {
    map q | q in full :: Pruned(cfg, before, p, q, full[q], done)
  }

  /** Looking at one more ring. */
  lemma PruneStep(cfg: Config, before: set<Id>, p: Id, around: (Id, Id), q: Id, s: PeerState, r: nat)
    requires Injective(cfg.hash) && IsRing(r, cfg.numRings) && p !in before
    requires IsAround(cfg.hash, r, before, p, around)
    ensures var s1 := Pruned(cfg, before, p, q, s, RingNums(r - 1));
      Pruned(cfg, before, p, q, s, RingNums(r)) ==
        if q == around.0 && NamesAccuser(s1, r, around.1) then ClearRing(s1, r) else s1
  {
    if r in s.accusations {
      PruneDecision(cfg, before, p, around, q, r, s);
    }
  }

  /** Clearing ring after ring. */
  ghost function ClearAll(full: map<Id, PeerState>, around: seq<(Id, Id)>, k: nat): map<Id, PeerState>
    requires k <= |around|
  {
    if k == 0 then full else Cleared(ClearAll(full, around, k - 1), k, around[k - 1])
  }

  /** Clearing between the newcomer's neighbours on the first `k` rings prunes exactly what is out of date there. */
  lemma {:induction false} ClearAllPrunes(cfg: Config, before: set<Id>, p: Id, around: seq<(Id, Id)>,
                                          full: map<Id, PeerState>, k: nat)
    requires Injective(cfg.hash) && p !in before && k <= |around| == cfg.numRings
    requires forall i :: 0 <= i < |around| ==> IsAround(cfg.hash, i + 1, before, p, around[i])
    ensures ClearAll(full, around, k) == AllPruned(cfg, before, p, full, RingNums(k))
  {
    if k == 0 {
      NonePruned(cfg, before, p, full);
    } else {
      ClearAllPrunes(cfg, before, p, around, full, k - 1);
      forall q | q in full
        ensures AllPruned(cfg, before, p, full, RingNums(k))[q] == ClearAll(full, around, k)[q]
      {
        PruneStep(cfg, before, p, around[k - 1], q, full[q], k);
      }
    }
  }

  lemma NonePruned(cfg: Config, before: set<Id>, p: Id, full: map<Id, PeerState>)
    ensures AllPruned(cfg, before, p, full, RingNums(0)) == full
  {
    forall q | q in full ensures Pruned(cfg, before, p, q, full[q], RingNums(0)) == full[q] {
      assert Pruned(cfg, before, p, q, full[q], RingNums(0)).accusations == full[q].accusations;
    }
  }

  /** With every ring looked at, the state is the one the joining step promises. */
  lemma PrunedIsJoined(cfg: Config, n: NodeState, p: Id)
    requires p !in n.live
    ensures NodeSpec.AddLive(cfg, n, p) ==
      n.(live := n.live + {p}, full := AllPruned(cfg, n.Members(), p, n.full, RingNums(cfg.numRings)))
  {
    forall q | q in n.full
      ensures Pruned(cfg, n.Members(), p, q, n.full[q], RingNums(cfg.numRings)) ==
        NodeSpec.Prune(cfg, n.Members(), p, q, n.full[q])
    {
    }
  }

  /** What the rings report as successor is the target of monitoring, and there is no other. */
  lemma SuccessorIsTarget(cfg: Config, n: NodeState, r: nat, succ: Option<Id>)
    requires Injective(cfg.hash)
    requires succ.Some? ==> NodeSpec.IsTarget(cfg, n, r, succ.value)
    requires succ.None? && IsRing(r, cfg.numRings) ==> Precedes(cfg.hash, r, n.Members(), n.Me(), n.Me())
    ensures succ == NodeSpec.RingSuccessor(cfg, n, r)
  {
    forall q | NodeSpec.IsTarget(cfg, n, r, q) ensures succ == Some(q) {
      NeighbourUnique(cfg.hash, r, n.Members(), n.Me(), q, if succ.Some? then succ.value else n.Me());
    }
  }

  /** The mask with every ring active. */
  method InitialMask(numRings: nat) returns (mask: nat)
    ensures mask == Block(0, numRings)
  {
    mask := 0;
    var i := 0;
    while i < numRings
      invariant 0 <= i <= numRings && mask == Block(0, i)
    {
      mask := SetBit(mask, i);
      i := i + 1;
    }
  }

  class View {
    const cfg: Config
    const self: Peer
    const rings: RingSet

    var viewMap: map<Id, Peer>
    var liveMap: map<Id, Peer>
    var timeoutMap: map<Id, Timer>
    var currGossipRing: nat
    var currMonitorRing: nat
    var deactivatedRings: nat

    ghost var signed: set<Signature>
    ghost var sent: seq<Request>

    function Me(): Id {
      self.certificate.id
    }

    ghost function Members(): set<Id>
      reads this`liveMap
    {
      liveMap.Keys + {Me()}
    }

    /** Live peers are known peers, and every ring holds exactly the live peers and the node itself. The node always
        has a note of its own. */
    ghost predicate Valid()
      reads this`viewMap, this`liveMap, this`timeoutMap, self`note, rings.ringMap.Values
    {
      match self.note
      case None => false
      case Some(_) =>
        && NodeSpec.Runnable(cfg)
        && Me() !in viewMap && self !in viewMap.Values
        && (forall q :: q in viewMap ==> viewMap[q].certificate.id == q)
        && (forall q :: q in liveMap ==> q in viewMap && liveMap[q] == viewMap[q])
        && (forall q :: q in timeoutMap ==> timeoutMap[q].accused == q)
        && rings.hash == cfg.hash && rings.numRings == cfg.numRings && rings.self == Me()
        && rings.Valid(Members())
    }

    ghost function Full(): map<Id, PeerState>
      reads this`viewMap, viewMap.Values
    {
      map q | q in viewMap :: viewMap[q].State()
    }

    /** The state this view stands for. */
    ghost function Abs(): NodeState
      requires self.note.Some?
      reads this, self`note, viewMap.Values
    {
      NodeSpec.NodeState(self.certificate, self.note.value, Full(), liveMap.Keys, timeoutMap, deactivatedRings,
                         currGossipRing, currMonitorRing, signed, sent)
    }

    /** A view in which every ring is active and nobody else is known. */
    constructor (cfg: Config, self: Peer)
      requires NodeSpec.Runnable(cfg)
      modifies self
      ensures Valid() && this.cfg == cfg && this.self == self && fresh(rings.ringMap.Values) && viewMap == map[]
      ensures Abs() == Protocol.NewView(cfg, self.certificate)
    {
      var mask := InitialMask(cfg.numRings);
      var note := NodeSpec.SelfNote(self.certificate.id, 1, mask);
      self.note := Some(note);
      this.cfg := cfg;
      this.self := self;
      this.rings := new RingSet(cfg.hash, cfg.numRings, self.certificate.id);
      viewMap, liveMap, timeoutMap := map[], map[], map[];
      currGossipRing, currMonitorRing, deactivatedRings := 1, 1, 0;
      signed, sent := {note.signature}, [];
      new;
      assert Members() == {Me()};
      assert Full() == map[];
    }

    // -------------------------------------------------------------------
    // Joining and leaving
    // -------------------------------------------------------------------

    /** Clears the accusation of the newcomer's successor by its predecessor on a ring, if there is one. */
    method ClearBetween(r: nat, around: (Id, Id))
      requires Valid()
      modifies viewMap.Values
      ensures Valid() && Abs() == old(Abs()).(full := Cleared(old(Full()), r, around))
    {
      // The node itself is never accused in its own view, so only the records of others are looked at.
      if around.0 in viewMap {
        var peer := viewMap[around.0];
        if r in peer.accusations && peer.accusations[r].Some? && peer.accusations[r].value.accuser == around.1 {
          peer.RemoveRingAccusation(r);
        }
      }
      assert Full() == Cleared(old(Full()), r, around);
    }

    /** Clears the accusations that a newcomer with these neighbours has put out of date. */
    method ClearOutdated(around: seq<(Id, Id)>)
      requires Valid()
      modifies viewMap.Values
      ensures Valid() && Abs() == old(Abs()).(full := ClearAll(old(Full()), around, |around|))
    {
      ghost var n := Abs();
      var k := 0;
      while k < |around|
        invariant 0 <= k <= |around| && Valid()
        invariant Abs() == n.(full := ClearAll(n.full, around, k))
      {
        ClearBetween(k + 1, around[k]);
        k := k + 1;
      }
    }

    /** Enters a peer into the live map and into every ring. */
    method Enter(p: Peer) returns (around: seq<(Id, Id)>)
      requires Valid() && p.certificate.id in viewMap && viewMap[p.certificate.id] == p && p.certificate.id !in liveMap
      modifies this`liveMap, rings.ringMap.Values
      ensures Valid() && Abs() == old(Abs()).(live := old(liveMap).Keys + {p.certificate.id})
      ensures |around| == cfg.numRings
      ensures forall k :: 0 <= k < |around| ==> IsAround(cfg.hash, k + 1, old(Members()), p.certificate.id, around[k])
    {
      ghost var before := Members();
      around := rings.Add(p.certificate.id, before);
      liveMap := liveMap[p.certificate.id := p];
      assert Members() == before + {p.certificate.id};
      assert liveMap.Keys == old(liveMap).Keys + {p.certificate.id};
      assert Full() == old(Full());
    }

    /** A peer joins the live view and every ring. */
    method AddLive(p: Peer)
      requires Valid() && p.certificate.id in viewMap && viewMap[p.certificate.id] == p
      modifies this`liveMap, rings.ringMap.Values, viewMap.Values
      ensures Valid() && Abs() == NodeSpec.AddLive(cfg, old(Abs()), p.certificate.id)
    {
      if p.certificate.id in liveMap {
        return;
      }
      PrunedIsJoined(cfg, Abs(), p.certificate.id);
      ghost var before := Members();
      var around := Enter(p);
      ClearAllPrunes(cfg, before, p.certificate.id, around, Full(), |around|);
      ClearOutdated(around);
    }

    /** A peer leaves the live view and every ring; its record stays. */
    method RemoveLive(id: Id)
      requires Valid()
      modifies this`liveMap, rings.ringMap.Values
      ensures Valid() && Abs() == NodeSpec.RemoveLive(old(Abs()), id)
    {
      ghost var members := Members();
      if id in liveMap {
        rings.Remove(id, members);
        assert members - ({id} - {Me()}) == members - {id};
        liveMap := liveMap - {id};
        assert Members() == members - {id};
      }
      assert liveMap.Keys == old(liveMap).Keys - {id};
    }

    /** Files the record of a peer that is not known yet. */
    method Record(p: Peer)
      requires Valid() && p.certificate.id !in viewMap && p != self
      modifies this`viewMap
      ensures viewMap == old(viewMap)[p.certificate.id := p]
      ensures Abs() == old(Abs()).(full := old(Full())[p.certificate.id := p.State()])
      ensures p.certificate.id != Me() ==> Valid()
    {
      viewMap := viewMap[p.certificate.id := p];
      assert Full() == old(Full())[p.certificate.id := p.State()];
    }

    /** A record for a certificate enters the full view, unless there is one already or the certificate is unusable. */
    method AddFull(certificate: Certificate) returns (outcome: Outcome)
      requires Valid()
      modifies this`viewMap
      ensures Abs() == NodeSpec.AddFull(cfg, old(Abs()), certificate)
      ensures outcome ==
        if certificate.id in old(viewMap) then PeerAlreadyExists
        else if NewPeer(certificate, cfg.numRings).None? then BadCertificate else Ok
      ensures certificate.id != Me() ==> Valid()
      ensures fresh(viewMap.Values - old(viewMap.Values))
    {
      if certificate.id in viewMap {
        return PeerAlreadyExists;
      }
      var p := MakePeer(certificate, cfg.numRings);
      if p == null {
        return BadCertificate;
      }
      Record(p);
      outcome := Ok;
    }

    // -------------------------------------------------------------------
    // Timers
    // -------------------------------------------------------------------

    method StartTimer(accused: Id, note: Option<Note>, observer: Id, now: int) returns (outcome: Outcome)
      requires Valid()
      modifies this`timeoutMap
      ensures outcome == if note.None? then NoNote else if note.value.id != accused then WrongNote else Ok
      ensures Valid() && Abs() == NodeSpec.StartTimer(old(Abs()), accused, note, observer, now)
    {
      if note.None? {
        return NoNote;
      }
      if note.value.id != accused {
        return WrongNote;
      }
      outcome := Ok;
      if accused in timeoutMap {
        var t := timeoutMap[accused];
        if t.lastNote.epoch < note.value.epoch {
          timeoutMap := timeoutMap[accused := NodeSpec.Timer(observer, t.timeStamp, note.value, accused)];
        }
      } else {
        timeoutMap := timeoutMap[accused := NodeSpec.Timer(observer, now, note.value, accused)];
      }
    }

    method DeleteTimeout(id: Id)
      requires Valid()
      modifies this`timeoutMap
      ensures Valid() && Abs() == old(Abs()).(timers := old(timeoutMap) - {id})
    {
      timeoutMap := timeoutMap - {id};
      assert Full() == old(Full());
    }

    method Expel(q: Id)
      requires Valid()
      modifies this`liveMap, this`timeoutMap, rings.ringMap.Values
      ensures Valid() && Abs() == old(Abs()).(live := old(liveMap).Keys - {q}, timers := old(timeoutMap) - {q})
    {
      RemoveLive(q);
      DeleteTimeout(q);
    }

    /** Expels every peer whose timer ran out. The timers are collected first and then looked at in any order. */
    method CheckTimeouts(now: int)
      requires Valid()
      modifies this`liveMap, this`timeoutMap, rings.ringMap.Values
      ensures Valid() && Abs() == NodeSpec.CheckTimeouts(cfg, old(Abs()), now)
    {
      ghost var n := Abs();
      var timeouts := timeoutMap;
      var todo := timeouts.Keys;
      ghost var gone: set<Id> := {};
      while todo != {}
        invariant todo <= timeouts.Keys && Valid()
        invariant gone == set q | q in timeouts && q !in todo && now - timeouts[q].timeStamp > cfg.removalTimeout
        invariant Abs() == n.(live := n.live - gone, timers := n.timers - gone)
        decreases todo
      {
        var q :| q in todo;
        var t := timeouts[q];
        todo := todo - {q};
        if now - t.timeStamp > cfg.removalTimeout {
          Expel(q);
          gone := gone + {q};
        }
      }
      assert gone == NodeSpec.Expired(cfg, n, now);
    }

    // -------------------------------------------------------------------
    // The node's own note
    // -------------------------------------------------------------------

    ghost function Own(): Own
      requires self.note.Some?
      reads this`deactivatedRings, self`note
    {
      OwnNote.Own(self.note.value.epoch, self.note.value.mask, deactivatedRings)
    }

    /** Switches a ring off in a copy of the mask, first switching another one back on when no more may be off. */
    method DeactivateRing(ringNumber: nat) returns (mask: Option<nat>)
      requires Valid()
      modifies this`deactivatedRings
      ensures Valid()
      ensures mask.None? <==> Deactivate(old(Own()), ringNumber, cfg.numRings).None?
      ensures mask.None? ==> deactivatedRings == old(deactivatedRings)
      ensures mask.Some? ==>
        Deactivate(old(Own()), ringNumber, cfg.numRings) ==
          Some(OwnNote.Own(self.note.value.epoch, mask.value, deactivatedRings))
    {
      if MaxByz(cfg.numRings) == 0 {
        return None;
      }
      var ringIdx := RingIndex(ringNumber);
      var maxIdx := cfg.numRings - 1;
      if ringIdx > maxIdx {
        return None;
      }
      var currMask := self.note.value.mask;
      if !HasBit(currMask, ringIdx) {
        return None;
      }
      if deactivatedRings == MaxByz(cfg.numRings) {
        var idx := 0;
        while idx <= maxIdx && !(idx != ringIdx && !HasBit(currMask, idx))
          invariant 0 <= idx <= cfg.numRings
          invariant FirstInactive(currMask, ringIdx, 0, cfg.numRings) ==
            FirstInactive(currMask, ringIdx, idx, cfg.numRings)
        {
          idx := idx + 1;
        }
        currMask := SetBit(currMask, idx);
      } else {
        deactivatedRings := deactivatedRings + 1;
      }
      mask := Some(ClearBit(currMask, ringIdx));
    }

    /** Makes a note the node's own and records its signature. */
    method SignLocalNote(note: Note)
      requires Valid()
      modifies this`signed, self`note
      ensures Valid() && Abs() == old(Abs()).(note := note, signed := old(signed) + {note.signature})
    {
      signed := signed + {note.signature};
      self.note := Some(note);
      assert Full() == old(Full());
    }

    /** Answers an accusation of the node itself, if it is about the current epoch. */
    method ShouldRebuttal(epoch: nat, ringNum: nat) returns (yes: bool)
      requires Valid()
      modifies this`deactivatedRings, this`signed, self`note
      ensures Valid()
      ensures match Answer(NodeSpec.OwnOf(old(Abs())), epoch, ringNum, cfg.numRings)
        case None => !yes && Abs() == old(Abs())
        case Some(own) => yes && Abs() == NodeSpec.Publish(old(Abs()), own)
    {
      var note := self.note.value;
      if note.epoch != epoch {
        return false;
      }
      var mask := DeactivateRing(ringNum);
      var newMask := if mask.Some? then mask.value else note.mask;
      var newNote := NodeSpec.SelfNote(Me(), note.epoch + 1, newMask);
      SignLocalNote(newNote);
      yes := true;
      assert Own() == Answer(old(Own()), epoch, ringNum, cfg.numRings).value;
    }

    // -------------------------------------------------------------------
    // Queries
    // -------------------------------------------------------------------

    method ValidAccuser(accused: Id, accuser: Id, ringNum: nat) returns (yes: bool)
      requires Valid()
      ensures Valid() && (yes <==> NodeSpec.ValidAccuser(cfg, Abs(), accused, accuser, ringNum))
    {
      yes := rings.IsPredecessor(accused, accuser, ringNum, Members());
    }

    method ShouldBeNeighbour(id: Id) returns (yes: bool)
      requires Valid()
      ensures Valid() && (yes <==> NodeSpec.ShouldBeNeighbour(cfg, Abs(), id))
    {
      yes := rings.ShouldBeMyNeighbour(id, Members());
    }

    method FindNeighbours(id: Id) returns (ids: seq<Id>)
      requires Valid()
      ensures Valid() && ToSet(ids) == NodeSpec.FindNeighbours(cfg, Abs(), id)
    {
      ids := rings.FindNeighbours(id, Members());
    }

    /** The neighbours on the current gossip ring; the next call turns to the next ring. */
    method GossipPartners() returns (ids: seq<Id>)
      requires Valid()
      modifies this`currGossipRing
      ensures Valid() && ToSet(ids) == NodeSpec.RingNeighbours(cfg, old(Abs()), old(currGossipRing))
      ensures Abs() == old(Abs()).(gossipRing := NodeSpec.NextRing(old(currGossipRing), cfg.numRings))
    {
      ids := rings.MyRingNeighbours(currGossipRing, Members());
      currGossipRing := NodeSpec.NextRing(currGossipRing, cfg.numRings);
      assert Full() == old(Full());
    }

    /** The peer to probe on the current monitor ring; the next call turns to the next ring. */
    method MonitorTarget() returns (target: Option<Id>, ringNum: nat)
      requires Valid()
      modifies this`currMonitorRing
      ensures Valid() && ringNum == old(currMonitorRing) && target == NodeSpec.RingSuccessor(cfg, old(Abs()), ringNum)
      ensures Abs() == old(Abs()).(monitorRing := NodeSpec.NextRing(old(currMonitorRing), cfg.numRings))
    {
      ringNum := currMonitorRing;
      target := rings.MyRingSuccessor(ringNum, Members());
      SuccessorIsTarget(cfg, Abs(), ringNum, target);
      currMonitorRing := NodeSpec.NextRing(currMonitorRing, cfg.numRings);
      assert Full() == old(Full());
    }
  }
}
