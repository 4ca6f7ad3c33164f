/** The rotation through the rings. */
module Rotation {
  import opened PeerSpec
  import opened NodeSpec
  import opened Protocol
  import opened Steps

  /** The ring reached after `k` turns. */
  function Turn(ring: nat, k: nat, numRings: nat): nat {
    if k == 0 then ring else NextRing(Turn(ring, k - 1, numRings), numRings)
  }

  lemma {:induction false} TurnIndex(ring: nat, k: nat, numRings: nat)
    requires IsRing(ring, numRings) && k <= numRings
    ensures IsRing(Turn(ring, k, numRings), numRings)
    ensures Turn(ring, k, numRings) == if ring + k <= numRings then ring + k else ring + k - numRings
  {
    if k > 0 {
      TurnIndex(ring, k - 1, numRings);
      NextRingInRange(Turn(ring, k - 1, numRings), numRings);
    }
  }

  lemma TurnReaches(ring: nat, r: nat, numRings: nat) returns (k: nat)
    requires IsRing(ring, numRings) && IsRing(r, numRings)
    ensures k < numRings && Turn(ring, k, numRings) == r
  {
    k := if ring <= r then r - ring else r + numRings - ring;
    TurnIndex(ring, k, numRings);
  }

  lemma TurnsDiffer(ring: nat, j: nat, k: nat, numRings: nat)
    requires IsRing(ring, numRings) && j < k < numRings
    ensures Turn(ring, j, numRings) != Turn(ring, k, numRings)
  {
    TurnIndex(ring, j, numRings);
    TurnIndex(ring, k, numRings);
  }

  /** The rings visited by `count` consecutive turns. */
  function Visits(ring: nat, count: nat, numRings: nat): seq<nat> {
    seq(count, k requires 0 <= k => Turn(ring, k, numRings))
  }

  /** From any ring, `numRings` consecutive turns visit every ring exactly once. */
  lemma FullTurn(ring: nat, numRings: nat)
    requires IsRing(ring, numRings)
    ensures var visits := Visits(ring, numRings, numRings);
      && (forall r :: IsRing(r, numRings) <==> r in visits)
      && (forall j, k :: 0 <= j < k < |visits| ==> visits[j] != visits[k])
  {
    var visits := Visits(ring, numRings, numRings);
    forall r | IsRing(r, numRings) ensures r in visits {
      var k := TurnReaches(ring, r, numRings);
      assert visits[k] == r;
    }
    forall r | r in visits ensures IsRing(r, numRings) {
      var k :| 0 <= k < numRings && visits[k] == r;
      TurnIndex(ring, k, numRings);
    }
    forall j, k | 0 <= j < k < |visits| ensures visits[j] != visits[k] {
      TurnsDiffer(ring, j, k, numRings);
    }
  }

  /** The `k`-th probe of a Monitor round is made on the ring `k` turns on. */
  lemma {:induction false} RoundRings(cfg: Config, n: NodeState, verdicts: seq<bool>, now: int)
    ensures MonitorRound(cfg, n, verdicts, now).monitorRing == Turn(n.monitorRing, |verdicts|, cfg.numRings)
  {
    if verdicts != [] {
      RoundRings(cfg, n, verdicts[..|verdicts| - 1], now);
    }
  }

  /** However many pings are configured, one Monitor round never probes the same ring twice. */
  lemma RoundNeverRepeats(cfg: Config, n: NodeState, configured: int, verdicts: seq<bool>, now: int, j: nat, k: nat)
    requires IsRing(n.monitorRing, cfg.numRings) && |verdicts| == PingsPerInterval(configured, cfg.numRings)
    requires j < k < |verdicts|
    ensures MonitorRound(cfg, n, verdicts[..j], now).monitorRing != MonitorRound(cfg, n, verdicts[..k], now).monitorRing
  {
    RoundRings(cfg, n, verdicts[..j], now);
    RoundRings(cfg, n, verdicts[..k], now);
    TurnsDiffer(n.monitorRing, j, k, cfg.numRings);
  }
}
