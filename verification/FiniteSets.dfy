/** Sizes and least elements of finite sets. */
module FiniteSets {
  import opened Common

  lemma SubsetSize<T>(a: set<T>, b: set<T>)
    requires a <= b
    ensures |a| <= |b|
  {
    assert b == a + (b - a);
    assert a !! (b - a);
  }

  predicate IsLeast(k: u64, s: set<u64>) {
    k in s && forall other <- s :: k <= other
  }

  lemma {:induction false} LeastExists(s: set<u64>)
    requires s != {}
    ensures exists k: u64 :: IsLeast(k, s)
  {
    var k: u64 :| k in s;
    var rest := s - {k};
    assert forall other <- s :: other == k || other in rest;
    if rest == {} {
      assert IsLeast(k, s);
    } else {
      LeastExists(rest);
      var least: u64 :| IsLeast(least, rest);
      assert IsLeast(if k < least then k else least, s);
    }
  }
}
