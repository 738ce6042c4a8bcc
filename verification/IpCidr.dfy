/** CIDR networks: masking by bits, and what it means for ranges of addresses. */
module IpCidrs {
  import opened Common
  import opened Bits
  import opened Division

  function Pow2(n: nat): (p: nat)
    ensures p > 0
  {
    if n == 0 then 1 else 2 * Pow2(n - 1)
  }

  /** All ones of the width, shifted left; a shift by the whole width leaves nothing. */
  function Ones(width: nat, shift: nat): nat
    requires shift <= width
  {
    if shift == width then 0 else Pow2(shift) * (Pow2(width - shift) - 1)
  }

  datatype IpCidr = IpCidr(network: IpAddr, prefixLength: u8)

  datatype RoutingError = PrefixOutOfRange | HostBitsSet

  function Width(a: IpAddr): nat { if a.V4? then 32 else 128 }

  function Number(a: IpAddr): nat { if a.V4? then a.address4 else a.address6 }

  /** How many low bits of this family's addresses the network leaves free. */
  function HostBits(c: IpCidr, a: IpAddr): nat {
    if c.prefixLength >= Width(a) then 0 else Width(a) - c.prefixLength
  }

  function Mask(c: IpCidr, a: IpAddr): nat {
    And(Number(a), Ones(Width(a), HostBits(c, a)))
  }

  function NewCidr(network: IpAddr, prefixLength: u8): Result<IpCidr, RoutingError> {
    var c := IpCidr(network, prefixLength);
    if prefixLength > Width(network) then Err(PrefixOutOfRange)
    else if Mask(c, network) != Number(network) then Err(HostBitsSet)
    else Ok(c)
  }

  predicate Contains(c: IpCidr, a: IpAddr) {
    (c.network.V4? <==> a.V4?) && Mask(c, a) == Number(c.network)
  }

  predicate IsCidr(c: IpCidr) { NewCidr(c.network, c.prefixLength) == Ok(c) }

  // ---------------------------------------------------------------- masking is rounding down

  lemma AndUnfolds(a: nat, b: nat)
    ensures And(a, b) == Low(a % 2 == 1 && b % 2 == 1) + 2 * And(a / 2, b / 2)
  {
  }

  lemma {:induction false} AndOnes(a: nat, width: nat)
    requires a < Pow2(width)
    ensures And(a, Pow2(width) - 1) == a
  {
    hide And;
    AndUnfolds(a, Pow2(width) - 1);
    if width == 0 {
      AndUnfolds(0, 0);
    } else {
      AndOnes(a / 2, width - 1);
      HalfOnes(Pow2(width - 1));
    }
  }

  lemma HalfOnes(p: nat)
    requires p > 0
    ensures (2 * p - 1) / 2 == p - 1 && (2 * p - 1) % 2 == 1
  {
  }

  lemma {:induction false} AndIsRoundingDown(a: nat, width: nat, shift: nat)
    requires a < Pow2(width) && shift <= width
    ensures And(a, Ones(width, shift)) == a - a % Pow2(shift)
    decreases shift
  {
    if shift == width {
      assert a % Pow2(shift) == a by { QuotientUnique(a, Pow2(shift), 0, a); }
    } else if shift == 0 {
      AndOnes(a, width);
    } else {
      hide And, Ones;
      AndIsRoundingDown(a / 2, width - 1, shift - 1);
      OnesHalve(width, shift);
      RemainderDoubles(a, Pow2(shift - 1));
      AndUnfolds(a, Ones(width, shift));
    }
  }

  lemma OnesHalve(width: nat, shift: nat)
    requires 0 < shift < width
    ensures Ones(width, shift) == 2 * Ones(width - 1, shift - 1)
  {
    var ones := Pow2(width - shift) - 1;
    assert 2 * Pow2(shift - 1) * ones == 2 * (Pow2(shift - 1) * ones);
  }

  lemma RemainderDoubles(a: nat, p: nat)
    requires p > 0
    ensures a % (2 * p) == 2 * (a / 2 % p) + a % 2
  {
    var h := a / 2;
    var q := h / p;
    assert h == q * p + h % p;
    assert a == q * (2 * p) + (2 * (h % p) + a % 2);
    QuotientUnique(a, 2 * p, q, 2 * (h % p) + a % 2);
  }

  lemma OneByte()
    ensures Pow2(8) == 0x100
  {
  }

  lemma Widths()
    ensures Pow2(32) == U32_MAX + 1 && Pow2(128) == U128_MAX + 1
  {
    hide Pow2;
    OneByte();
    PowersAdd(8, 8);
    PowersAdd(16, 16);
    PowersAdd(32, 32);
    PowersAdd(64, 64);
  }

  lemma {:induction false} PowersAdd(m: nat, n: nat)
    ensures Pow2(m + n) == Pow2(m) * Pow2(n)
    decreases n
  {
    if n > 0 {
      PowersAdd(m, n - 1);
      assert Pow2(m + n) == 2 * (Pow2(m) * Pow2(n - 1));
    }
  }

  lemma MaskIsRoundingDown(c: IpCidr, a: IpAddr)
    ensures Mask(c, a) == Number(a) - Number(a) % Pow2(HostBits(c, a))
  {
    Widths();
    AndIsRoundingDown(Number(a), Width(a), HostBits(c, a));
  }

  lemma RoundsTo(a: nat, p: nat, n: nat)
    requires p > 0 && n % p == 0
    ensures a - a % p == n <==> n <= a < n + p
  {
    if n <= a < n + p {
      assert n == (n / p) * p;
      QuotientUnique(a, p, n / p, a - n);
    }
  }

  // ---------------------------------------------------------------- ranges

  /** A network contains exactly the interval of its power-of-two size above its own address. */
  lemma ContainsIsAnInterval(c: IpCidr, a: IpAddr)
    requires IsCidr(c)
    ensures Contains(c, a) <==>
      (c.network.V4? <==> a.V4?)
      && Number(c.network) <= Number(a) < Number(c.network) + Pow2(HostBits(c, a))
  {
    hide And, Ones, Pow2;
    if c.network.V4? <==> a.V4? {
      MaskIsRoundingDown(c, c.network);
      MaskIsRoundingDown(c, a);
      RoundsTo(Number(a), Pow2(HostBits(c, a)), Number(c.network));
    }
  }

  /** A network is an address whose free bits are all zero, with a prefix its family has. */
  lemma NetworksAccepted(network: IpAddr, prefixLength: u8)
    ensures var r := NewCidr(network, prefixLength);
      var width := if network.V4? then 32 else 128;
      && (r == Err(PrefixOutOfRange) <==> prefixLength > width)
      && (prefixLength <= width ==>
            (r == Ok(IpCidr(network, prefixLength)) <==> Number(network) % Pow2(width - prefixLength) == 0)
            && (r == Err(HostBitsSet) <==> Number(network) % Pow2(width - prefixLength) != 0))
  {
    hide And, Ones, Pow2;
    MaskIsRoundingDown(IpCidr(network, prefixLength), network);
  }

  lemma {:induction false} LargerPowerIsMultiple(m: nat, n: nat)
    requires m <= n
    ensures Pow2(n) % Pow2(m) == 0
    decreases n
  {
    PowersAdd(m, n - m);
    QuotientUnique(Pow2(n), Pow2(m), Pow2(n - m), 0);
  }

  /** Two networks of one family are nested or disjoint: sharing an address, the longer prefix lies inside. */
  lemma NestedOrDisjoint(c: IpCidr, d: IpCidr, shared: IpAddr, a: IpAddr)
    requires IsCidr(c) && IsCidr(d) && Contains(c, shared) && Contains(d, shared)
    requires d.prefixLength <= c.prefixLength && Contains(c, a)
    ensures Contains(d, a)
  {
    hide And, Ones, Pow2, Mask;
    ContainsIsAnInterval(c, shared);
    ContainsIsAnInterval(d, shared);
    ContainsIsAnInterval(c, a);
    ContainsIsAnInterval(d, a);
    MaskIsRoundingDown(c, c.network);
    MaskIsRoundingDown(d, d.network);
    var small, large := Pow2(HostBits(c, a)), Pow2(HostBits(d, a));
    LargerPowerIsMultiple(HostBits(c, a), HostBits(d, a));
    BlocksNest(Number(c.network), small, Number(d.network), large, Number(shared), Number(a));
  }

  /** Aligned blocks: the one whose size divides the other's lies inside any such block it meets. */
  lemma BlocksNest(n: nat, small: nat, m: nat, large: nat, x: nat, a: nat)
    requires small > 0 && large > 0 && large % small == 0 && n % small == 0 && m % large == 0
    requires n <= x < n + small && m <= x < m + large && n <= a < n + small
    ensures m <= a < m + large
  {
    var k, i, j := large / small, n / small, m / large;
    QuotientExact(large, small);
    QuotientExact(n, small);
    QuotientExact(m, large);
    BlockOfBlocks(i, j, k, small, x);
  }

  lemma QuotientExact(n: nat, p: nat)
    requires p > 0 && n % p == 0
    ensures n == (n / p) * p
  {
  }

  /** Block `i` of size `p` against block `j` of size `k * p`. */
  lemma BlockOfBlocks(i: nat, j: nat, k: nat, p: nat, x: nat)
    requires i * p <= x < i * p + p && j * (k * p) <= x < j * (k * p) + k * p
    ensures j * (k * p) <= i * p && i * p + p <= j * (k * p) + k * p
  {
    Regroup(j, k, p);
    WholeBlock(i, j * k, j * k + k, p, x);
  }

  /** A unit block that meets a run of whole blocks is one of them. */
  lemma WholeBlock(i: nat, first: nat, last: nat, p: nat, x: nat)
    requires first * p <= x < last * p && i * p <= x < i * p + p
    ensures first * p <= i * p && i * p + p <= last * p
  {
    Times(i + 1, first, p);
    Times(i, i, p);
    Times(last, i, p);
    Times(first, i, p);
    Times(i + 1, last, p);
  }

  lemma Regroup(j: nat, k: nat, p: nat)
    ensures j * (k * p) == (j * k) * p && (j * k) * p + k * p == (j * k + k) * p
  {
  }

  lemma Times(i: nat, j: nat, p: nat)
    ensures i <= j ==> i * p <= j * p
    ensures (i + 1) * p == i * p + p
  {
  }
}
