/** A concrete network for the scenarios: positions, four identifiers and a configuration with one ring. */
module Sample {
  import opened Types
  import opened NodeSpec
  import opened Protocol
  import Predecessors
  import Scenarios
  import TimedPeers

  const BASE := 0x11_0000

  /** Strings as numbers, a digit from 1 to `BASE` per character. */
  function Code(s: string): nat {
    if s == "" then 0 else Code(s[..|s| - 1]) * BASE + s[|s| - 1] as int + 1
  }

  lemma {:induction false} CodeInjective(a: string, b: string)
    requires Code(a) == Code(b)
    ensures a == b
  {
    if a != "" && b != "" {
      CodeInjective(a[..|a| - 1], b[..|b| - 1]);
      assert a == a[..|a| - 1] + [a[|a| - 1]] && b == b[..|b| - 1] + [b[|b| - 1]];
    }
  }

  function Position(r: nat, id: Id): int {
    Code(id.bytes)
  }

  const CONFIG := Config(1, Position, false, 60)

  /** An identifier of the required size that ends in `c`. */
  function Named(c: char): (id: Id)
    ensures |id.bytes| == ID_SIZE && id.bytes[31] == c
  {
    Id("0123456789012345678901234567890" + [c])
  }

  function Holder(c: char): Certificate {
    Certificate(Named(c), 2, true, false, true)
  }

  lemma ConfigIsGood()
    ensures GoodConfig(CONFIG)
  {
    forall r: nat, x: Id, y: Id ensures Apart(Position, r, x, y) {
      if Position(r, x) == Position(r, y) {
        CodeInjective(x.bytes, y.bytes);
      }
    }
  }

  /** The last character decides the order. */
  lemma PositionOf(c: char)
    ensures Position(1, Named(c)) == Code("0123456789012345678901234567890") * BASE + c as int + 1
  {
    var prefix := "0123456789012345678901234567890";
    assert (prefix + [c])[..31] == prefix;
  }

  lemma Positions()
    ensures Position(1, Named('a')) < Position(1, Named('b')) < Position(1, Named('c')) < Position(1, Named('d'))
  {
    PositionOf('a');
    PositionOf('b');
    PositionOf('c');
    PositionOf('d');
  }

  /** Node `a` finds `d` dead at time 0, `b` joins between the two and clears the accusation, and at time 61 a peer that
      nobody accuses is expelled. */
  lemma TimedButNotAccused()
    ensures GoodConfig(CONFIG)
    ensures var n := Run(CONFIG, NewNode(CONFIG, Holder('a'), []), Scenarios.LandingRun(Holder('d'), Holder('b'), 0));
      && !TimedPeers.TimedAreAccused(n) && Named('d') in n.live
      && Named('d') !in CheckTimeouts(CONFIG, n, 61).live
  {
    ConfigIsGood();
    Positions();
    Scenarios.ClearedButExpelled(CONFIG, Holder('a'), Holder('d'), Holder('b'), 0, 61);
    Scenarios.Runs(CONFIG, NewNode(CONFIG, Holder('a'), []),
                   Scenarios.LandingRun(Holder('d'), Holder('b'), 0), DoTimeouts(61));
  }

  /** At node `a`, peer `b` accuses `d` and is expelled, `c` joins between them, and the return of `b` leaves an
      accusation of `d` by a live peer that is not its predecessor. */
  lemma AccuserNotPredecessor()
    ensures GoodConfig(CONFIG)
    ensures var events := Scenarios.OvertakenRun(CONFIG, Holder('b'), Holder('c'), Holder('d'));
      var start := NewNode(CONFIG, Holder('a'), []);
      && Predecessors.NamesPredecessors(CONFIG, Run(CONFIG, start, events), 1)
      && !Predecessors.NamesPredecessors(CONFIG, Run(CONFIG, start, events + [Scenarios.Hello(Holder('b'), 2)]), 1)
  {
    ConfigIsGood();
    Positions();
    Scenarios.BackOutOfPlace(CONFIG, Holder('a'), Holder('b'), Holder('c'), Holder('d'));
  }
}
