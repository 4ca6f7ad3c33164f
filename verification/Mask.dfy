/** Ring masks: 32-bit words in which bit `r - 1` is set while ring `r` is active. */
module Mask {

  const WORD := 32

  // ---------------------------------------------------------------------
  // Words. A word is a natural number and its bits are read off by halving;
  // a bit past the end of the word is never set, as in a Go `uint32`, where
  // shifting one past the end gives zero.
  // ---------------------------------------------------------------------

  predicate HasBit(n: nat, pos: nat) {
    if pos == 0 then n % 2 == 1 else HasBit(n / 2, pos - 1)
  }

  function Or1(n: nat, pos: nat): nat {
    if pos == 0 then n - n % 2 + 1 else 2 * Or1(n / 2, pos - 1) + n % 2
  }

  function AndNot1(n: nat, pos: nat): nat {
    if pos == 0 then n - n % 2 else 2 * AndNot1(n / 2, pos - 1) + n % 2
  }

  function SetBit(n: nat, pos: nat): nat {
    if pos < WORD then Or1(n, pos) else n
  }

  function ClearBit(n: nat, pos: nat): nat {
    if pos < WORD then AndNot1(n, pos) else n
  }

  /** How many of the bits below `k` are set. */
  function CountBelow(n: nat, k: nat): (c: nat)
    ensures c <= k
  {
    if k == 0 then 0 else CountBelow(n, k - 1) + if HasBit(n, k - 1) then 1 else 0
  }

  /** The population count of the whole word. */
  function OnesCount(n: nat): nat {
    CountBelow(n, WORD)
  }

  lemma {:induction false} Or1Bits(n: nat, p: nat, q: nat)
    ensures HasBit(Or1(n, p), q) <==> q == p || HasBit(n, q)
  {
    if p > 0 {
      assert Or1(n, p) / 2 == Or1(n / 2, p - 1) && Or1(n, p) % 2 == n % 2;
      if q > 0 {
        Or1Bits(n / 2, p - 1, q - 1);
      }
    } else if q > 0 {
      assert Or1(n, p) / 2 == n / 2;
    }
  }

  lemma {:induction false} AndNot1Bits(n: nat, p: nat, q: nat)
    ensures HasBit(AndNot1(n, p), q) <==> q != p && HasBit(n, q)
  {
    if p > 0 {
      assert AndNot1(n, p) / 2 == AndNot1(n / 2, p - 1) && AndNot1(n, p) % 2 == n % 2;
      if q > 0 {
        AndNot1Bits(n / 2, p - 1, q - 1);
      }
    } else if q > 0 {
      assert AndNot1(n, p) / 2 == n / 2;
    }
  }

  /** Setting and clearing a bit of the word changes that bit and no other. */
  lemma BitHelpers(n: nat, p: nat, q: nat)
    requires p < WORD
    ensures HasBit(SetBit(n, p), q) <==> q == p || HasBit(n, q)
    ensures HasBit(ClearBit(n, p), q) <==> q != p && HasBit(n, q)
  {
    Or1Bits(n, p, q);
    AndNot1Bits(n, p, q);
  }

  // ---------------------------------------------------------------------
  // Which masks are acceptable
  // ---------------------------------------------------------------------

  /** The number of rings a peer may deactivate. */
  function MaxByz(numRings: nat): (m: nat)
    ensures 2 * m <= numRings && (numRings >= 1 ==> 2 * m < numRings)
    ensures if numRings < 2 then m == 0 else 2 * m <= numRings - 2 < 2 * m + 2
  {
    var m := numRings as real / 2.0 - 1.0;
    if m < 0.0 then 0 else m.Floor
  }

  predicate ValidMask(mask: nat, numRings: nat) {
    var disabled := numRings - OnesCount(mask);
    disabled <= MaxByz(numRings)
  }

  /** A note's ring test. A ring number outside `1..numRings` is never reported as disabled. */
  predicate IsRingDisabled(mask: nat, ringNum: nat, numRings: nat)
    requires numRings >= 1
  {
    var idx := ringNum - 1;
    if idx > numRings - 1 || idx < 0 then false else !HasBit(mask, idx)
  }

  /** No bit at or above `numRings` is set. */
  ghost predicate Confined(mask: nat, numRings: nat) {
    forall i: nat :: numRings <= i ==> !HasBit(mask, i)
  }

  /** The number of rings that the mask disables. */
  function Disabled(mask: nat, numRings: nat): (d: nat)
    ensures d <= numRings
  {
    numRings - CountBelow(mask, numRings)
  }

  /** Bits from `j` up to `k` add nothing to the count when they are clear, and at most one each. */
  lemma {:induction false} CountSplit(mask: nat, j: nat, k: nat)
    requires j <= k
    ensures CountBelow(mask, j) <= CountBelow(mask, k) <= CountBelow(mask, j) + (k - j)
    ensures (forall i: nat :: j <= i < k ==> !HasBit(mask, i)) ==> CountBelow(mask, k) == CountBelow(mask, j)
    ensures (forall i: nat :: j <= i < k ==> HasBit(mask, i)) ==> CountBelow(mask, k) == CountBelow(mask, j) + (k - j)
    decreases k
  {
    if j < k {
      CountSplit(mask, j, k - 1);
    }
  }

  /** For a mask confined to the rings, `ValidMask` bounds the disabled rings by `MaxByz`. */
  lemma ConfinedMask(mask: nat, numRings: nat)
    requires numRings <= WORD && Confined(mask, numRings)
    ensures ValidMask(mask, numRings) <==> Disabled(mask, numRings) <= MaxByz(numRings)
  {
    CountSplit(mask, numRings, WORD);
  }

  /** If two masks share no active ring below `k`, their active counts fit into `k` together. */
  lemma {:induction false} DisjointCounts(a: nat, b: nat, k: nat)
    requires forall i: nat :: i < k ==> !(HasBit(a, i) && HasBit(b, i))
    ensures CountBelow(a, k) + CountBelow(b, k) <= k
  {
    if k > 0 {
      DisjointCounts(a, b, k - 1);
    }
  }

  /** An accepted mask leaves a strict majority of the rings active. */
  lemma Majority(mask: nat, numRings: nat)
    requires 1 <= numRings <= WORD && Confined(mask, numRings) && ValidMask(mask, numRings)
    ensures 2 * CountBelow(mask, numRings) > numRings
  {
    ConfinedMask(mask, numRings);
  }

  /** Any two accepted masks have a ring active in both. */
  lemma SharedRing(a: nat, b: nat, numRings: nat)
    requires 1 <= numRings <= WORD
    requires Confined(a, numRings) && ValidMask(a, numRings)
    requires Confined(b, numRings) && ValidMask(b, numRings)
    ensures exists i: nat :: i < numRings && HasBit(a, i) && HasBit(b, i)
  {
    Majority(a, numRings);
    Majority(b, numRings);
    if forall i: nat :: i < numRings ==> !(HasBit(a, i) && HasBit(b, i)) {
      DisjointCounts(a, b, numRings);
    }
  }

  /** The word with exactly the bits `lo <= i < hi` set. */
  function Block(lo: nat, hi: nat): nat
    requires lo <= hi
    decreases hi
  {
    if lo == hi then 0 else SetBit(Block(lo, hi - 1), hi - 1)
  }

  lemma {:induction false} NoBits(i: nat)
    ensures !HasBit(0, i)
  {
    if i > 0 {
      NoBits(i - 1);
    }
  }

  lemma {:induction false} BlockBits(lo: nat, hi: nat, i: nat)
    requires lo <= hi <= WORD
    ensures HasBit(Block(lo, hi), i) <==> lo <= i < hi
    decreases hi
  {
    if lo == hi {
      NoBits(i);
    } else {
      BlockBits(lo, hi - 1, i);
      BitHelpers(Block(lo, hi - 1), hi - 1, i);
    }
  }

  /** Because the count covers all 32 bits, acceptance alone bounds the disabled rings only when every bit of
      the word is a ring. */
  lemma ValidMaskBoundsDisabled(numRings: nat)
    requires 1 <= numRings <= WORD
    ensures (forall mask: nat :: ValidMask(mask, numRings) ==> Disabled(mask, numRings) <= MaxByz(numRings))
       <==> numRings == WORD
  {
    if numRings < WORD {
      var m := MaxByz(numRings);
      var mask := Block(m + 1, numRings + 1);
      forall i: nat
        ensures HasBit(mask, i) <==> m + 1 <= i < numRings + 1
      {
        BlockBits(m + 1, numRings + 1, i);
      }
      CountSplit(mask, 0, m + 1);
      CountSplit(mask, m + 1, numRings);
      CountSplit(mask, m + 1, numRings + 1);
      CountSplit(mask, numRings + 1, WORD);
      assert ValidMask(mask, numRings) && Disabled(mask, numRings) == m + 1;
    }
  }
}
