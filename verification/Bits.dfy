/** Bit sets as natural numbers. */
module Bits {

  predicate HasBit(bits: nat, i: nat) {
    if i == 0 then bits % 2 == 1 else HasBit(bits / 2, i - 1)
  }

  function Low(b: bool): nat { if b then 1 else 0 }

  function And(a: nat, b: nat): nat {
    if a == 0 || b == 0 then 0 else Low(a % 2 == 1 && b % 2 == 1) + 2 * And(a / 2, b / 2)
  }

  function Or(a: nat, b: nat): nat {
    if a == 0 then b else if b == 0 then a else Low(a % 2 == 1 || b % 2 == 1) + 2 * Or(a / 2, b / 2)
  }

  lemma {:induction false} ZeroHasNoBits(i: nat)
    ensures !HasBit(0, i)
  {
    if i > 0 { ZeroHasNoBits(i - 1); }
  }

  lemma {:induction false} AndBits(a: nat, b: nat, i: nat)
    ensures HasBit(And(a, b), i) <==> HasBit(a, i) && HasBit(b, i)
    decreases i
  {
    ZeroHasNoBits(i);
    if a > 0 && b > 0 && i > 0 {
      AndBits(a / 2, b / 2, i - 1);
      assert And(a, b) / 2 == And(a / 2, b / 2);
    }
  }

  lemma {:induction false} OrBits(a: nat, b: nat, i: nat)
    ensures HasBit(Or(a, b), i) <==> HasBit(a, i) || HasBit(b, i)
    decreases i
  {
    ZeroHasNoBits(i);
    if a > 0 && b > 0 && i > 0 {
      OrBits(a / 2, b / 2, i - 1);
      assert Or(a, b) / 2 == Or(a / 2, b / 2);
    }
  }

  ghost predicate SameBits(a: nat, b: nat) {
    forall i: nat :: HasBit(a, i) <==> HasBit(b, i)
  }

  lemma HalvesSame(a: nat, b: nat)
    requires SameBits(a, b)
    ensures SameBits(a / 2, b / 2) && a % 2 == b % 2
  {
    assert HasBit(a, 0) <==> HasBit(b, 0);
    forall i: nat ensures HasBit(a / 2, i) <==> HasBit(b / 2, i) {
      assert HasBit(a, i + 1) <==> HasBit(b, i + 1);
    }
  }

  /** A number is its set of bits. */
  lemma {:induction false} BitsDetermine(a: nat, b: nat)
    requires SameBits(a, b)
    ensures a == b
    decreases a + b
  {
    if a > 0 || b > 0 {
      HalvesSame(a, b);
      BitsDetermine(a / 2, b / 2);
    }
  }

  /** The intersection is not empty exactly when some bit is shared. */
  lemma AndMeansSharedBit(a: nat, b: nat)
    ensures And(a, b) != 0 <==> exists i: nat :: HasBit(a, i) && HasBit(b, i)
  {
    if And(a, b) == 0 {
      forall i: nat ensures !(HasBit(a, i) && HasBit(b, i)) {
        AndBits(a, b, i);
        ZeroHasNoBits(i);
      }
    } else {
      var i := SomeBit(And(a, b));
      AndBits(a, b, i);
      assert HasBit(a, i) && HasBit(b, i);
    }
  }

  ghost function SomeBit(a: nat): (i: nat)
    requires a > 0
    ensures HasBit(a, i)
  {
    if a % 2 == 1 then 0 else SomeBit(a / 2) + 1
  }

  ghost predicate HasAllBitsOf(a: nat, b: nat) {
    forall i: nat :: HasBit(b, i) ==> HasBit(a, i)
  }

  /** Containing, as the code tests it, is having every bit. */
  lemma ContainsMeansAllBits(a: nat, b: nat)
    ensures And(a, b) == b <==> HasAllBitsOf(a, b)
  {
    forall i: nat ensures HasBit(And(a, b), i) <==> HasBit(a, i) && HasBit(b, i) { AndBits(a, b, i); }
    SubsetByBits(And(a, b), a, b);
  }

  lemma SubsetByBits(common: nat, a: nat, b: nat)
    requires forall i: nat :: HasBit(common, i) <==> HasBit(a, i) && HasBit(b, i)
    ensures common == b <==> HasAllBitsOf(a, b)
  {
    if HasAllBitsOf(a, b) {
      assert SameBits(common, b);
      BitsDetermine(common, b);
    }
  }

  lemma {:induction false} AndIsSmaller(a: nat, b: nat)
    ensures And(a, b) <= a && And(a, b) <= b
  {
    if a > 0 && b > 0 { AndIsSmaller(a / 2, b / 2); }
  }
}
