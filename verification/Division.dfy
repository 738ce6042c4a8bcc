/** Quotient and remainder are unique. */
module Division {

  lemma MultipleIsFar(d: int, size: nat)
    ensures d >= 1 ==> d * size >= size
    ensures d <= -1 ==> d * size + size <= 0
  {
  }

  lemma QuotientUnique(n: nat, size: nat, q: nat, r: nat)
    requires r < size && n == q * size + r
    ensures n % size == r && n / size == q
  {
    var d := n / size - q;
    assert n == (n / size) * size + n % size;
    assert d * size == r - n % size by {
      assert (n / size) * size - q * size == d * size;
    }
    MultipleIsFar(d, size);
  }
}
