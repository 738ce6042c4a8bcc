/** Network byte order, and the readers both codecs are built from. */
module ByteOrder {
  import opened Common

  function Pow256(n: nat): nat {
    if n == 0 then 1 else 256 * Pow256(n - 1)
  }

  /** The `width` bytes of `value`, most significant first. */
  function BigEndian(value: nat, width: nat): (b: Bytes)
    ensures |b| == width
  {
    if width == 0 then [] else BigEndian(value / 256, width - 1) + [value % 256]
  }

  function FromBigEndian(b: Bytes): nat {
    if b == [] then 0 else 256 * FromBigEndian(b[..|b| - 1]) + b[|b| - 1]
  }

  lemma {:induction false} BigEndianRoundTrip(value: nat, width: nat)
    requires value < Pow256(width)
    ensures FromBigEndian(BigEndian(value, width)) == value
  {
    if width > 0 {
      var front := BigEndian(value / 256, width - 1);
      var b := front + [value % 256];
      assert b[..width - 1] == front && b[width - 1] == value % 256;
      LeadingBytesFit(value, width);
      BigEndianRoundTrip(value / 256, width - 1);
      assert FromBigEndian(b) == 256 * (value / 256) + value % 256;
    }
  }

  lemma LeadingBytesFit(value: nat, width: nat)
    requires 0 < width && value < Pow256(width)
    ensures value / 256 < Pow256(width - 1)
  {
  }

  lemma {:induction false} FromBigEndianRoundTrip(b: Bytes)
    ensures FromBigEndian(b) < Pow256(|b|)
    ensures BigEndian(FromBigEndian(b), |b|) == b
  {
    if b != [] {
      FromBigEndianRoundTrip(b[..|b| - 1]);
      assert b == b[..|b| - 1] + [b[|b| - 1]];
    }
  }

  lemma Widths()
    ensures Pow256(1) == 0x100 && Pow256(2) == 0x1_0000 && Pow256(4) == 0x1_0000_0000
    ensures Pow256(8) == 0x1_0000_0000_0000_0000
  {
    assert Pow256(3) == 0x100_0000;
    assert Pow256(6) == 0x1_0000_0000_0000;
  }

  lemma WideWidths()
    ensures Pow256(16) == 0x1_0000_0000_0000_0000_0000_0000_0000_0000
  {
    Widths();
    assert Pow256(10) == 0x1_0000_0000_0000_0000_0000;
    assert Pow256(12) == 0x1_0000_0000_0000_0000_0000_0000;
    assert Pow256(14) == 0x1_0000_0000_0000_0000_0000_0000_0000;
  }

  /** A stream, from the pieces it arrived in. */
  function Concat(chunks: seq<Bytes>): Bytes {
    if chunks == [] then [] else chunks[0] + Concat(chunks[1..])
  }

  /** A value read from the front of some bytes, and the bytes after it. */
  datatype Parsed<+T> = Parsed(value: T, rest: Bytes)

  /** What a reading step returns and leaves behind, against the parser that specifies it. */
  ghost predicate Follows<T, E>(parsed: Result<Parsed<T>, E>, r: Result<T, E>, rest: Bytes) {
    match parsed
    case Ok(p) => r == Ok(p.value) && rest == p.rest
    case Err(e) => r == Err(e)
  }
}
