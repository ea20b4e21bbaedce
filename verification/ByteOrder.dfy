/** Bytes and little-endian integers. */
module ByteOrder {
  type u8 = x: nat | x < 256

  const U32_LIMIT: nat := 0x1_0000_0000
  const U64_LIMIT: nat := 0x1_0000_0000_0000_0000

  /** The bytes of an ASCII text. */
  function Ascii(text: string): seq<int> { seq(|text|, i requires 0 <= i < |text| => text[i] as int) }

  /** Little-endian bytes of a `width`-byte integer. */
  function LittleEndian(x: nat, width: nat): (bytes: seq<u8>)
    ensures |bytes| == width
  {
    if width == 0 then [] else [x % 256] + LittleEndian(x / 256, width - 1)
  }

  function LeValue(bytes: seq<u8>): nat {
    if bytes == [] then 0 else bytes[0] as int + 256 * LeValue(bytes[1..])
  }

  function Power256(n: nat): nat { if n == 0 then 1 else 256 * Power256(n - 1) }

  lemma Limits()
    ensures Power256(8) == U64_LIMIT && Power256(4) == U32_LIMIT
  {
    assert Power256(4) == 256 * (256 * (256 * (256 * Power256(0))));
    assert Power256(8) == 256 * (256 * (256 * (256 * Power256(4))));
  }

  /** Reading back what was written. */
  lemma {:induction false} LeRoundTrip(x: nat, width: nat)
    requires x < Power256(width)
    ensures LeValue(LittleEndian(x, width)) == x
  {
    if width > 0 {
      LeRoundTrip(x / 256, width - 1);
      assert LittleEndian(x, width)[1..] == LittleEndian(x / 256, width - 1);
    }
  }

  /** Writing back what was read. */
  lemma {:induction false} LeInverse(bytes: seq<u8>)
    ensures LittleEndian(LeValue(bytes), |bytes|) == bytes
  {
    if bytes != [] {
      LeInverse(bytes[1..]);
      LowDigit(bytes[0], LeValue(bytes[1..]));
      assert bytes == [bytes[0]] + bytes[1..];
    }
  }

  lemma LowDigit(digit: u8, rest: nat)
    ensures (digit as int + 256 * rest) % 256 == digit && (digit as int + 256 * rest) / 256 == rest
  {}

  lemma {:induction false} LeBound(bytes: seq<u8>)
    ensures LeValue(bytes) < Power256(|bytes|)
  {
    if bytes != [] { LeBound(bytes[1..]); }
  }

  lemma LittleEndianInjective(x: nat, y: nat, width: nat)
    requires x < Power256(width) && y < Power256(width)
    requires LittleEndian(x, width) == LittleEndian(y, width)
    ensures x == y
  {
    LeRoundTrip(x, width);
    LeRoundTrip(y, width);
  }
}
