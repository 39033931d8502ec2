/** 64-bit words as bit vectors, and their little-endian bytes. */
module Longs {
  type Octet = bv8
  type Long = bv64

  function Xor(a: Long, b: Long): (r: Long) { a ^ b }

  function Or(a: Long, b: Long): (r: Long) { a | b }

  function Twice(a: Long): (r: Long) { a << 1 }

  function Half(a: Long): (r: Long) { a >> 1 }

  /** a << n and a >> n, a place at a time. */
  function Up(a: Long, n: nat): (r: Long)
  {
    if n == 0 then a else Twice(Up(a, n - 1))
  }

  function Down(a: Long, n: nat): (r: Long)
  {
    if n == 0 then a else Half(Down(a, n - 1))
  }

  /** a << n | a >> (64 - n): the rotation to the left by n places. */
  function Rot(a: Long, n: nat): (r: Long)
    requires n < 64
  {
    if n == 0 then a else Or(Up(a, n), Down(a, 64 - n))
  }

  /** Byte i, from the least significant. */
  function ByteOf(a: Long, i: nat): (b: Octet)
    requires i < 8
  {
    match i
    case 0 => (a & 0xFF) as bv8
    case 1 => ((a >> 8) & 0xFF) as bv8
    case 2 => ((a >> 16) & 0xFF) as bv8
    case 3 => ((a >> 24) & 0xFF) as bv8
    case 4 => ((a >> 32) & 0xFF) as bv8
    case 5 => ((a >> 40) & 0xFF) as bv8
    case 6 => ((a >> 48) & 0xFF) as bv8
    case 7 => ((a >> 56) & 0xFF) as bv8
  }

  function LongOf(b0: Octet, b1: Octet, b2: Octet, b3: Octet, b4: Octet, b5: Octet, b6: Octet, b7: Octet): (a: Long)
  {
    (b0 as bv64) | ((b1 as bv64) << 8) | ((b2 as bv64) << 16) | ((b3 as bv64) << 24)
    | ((b4 as bv64) << 32) | ((b5 as bv64) << 40) | ((b6 as bv64) << 48) | ((b7 as bv64) << 56)
  }

  lemma LongRoundTrip(b0: Octet, b1: Octet, b2: Octet, b3: Octet, b4: Octet, b5: Octet, b6: Octet, b7: Octet)
    ensures var a := LongOf(b0, b1, b2, b3, b4, b5, b6, b7);
            && ByteOf(a, 0) == b0 && ByteOf(a, 1) == b1 && ByteOf(a, 2) == b2 && ByteOf(a, 3) == b3
            && ByteOf(a, 4) == b4 && ByteOf(a, 5) == b5 && ByteOf(a, 6) == b6 && ByteOf(a, 7) == b7
  {
  }

  lemma ByteRoundTrip(a: Long)
    ensures LongOf(ByteOf(a, 0), ByteOf(a, 1), ByteOf(a, 2), ByteOf(a, 3),
                   ByteOf(a, 4), ByteOf(a, 5), ByteOf(a, 6), ByteOf(a, 7)) == a
  {
  }

  /** binary.LittleEndian.Uint64, at word i of a byte string. */
  function LongAt(b: seq<Octet>, i: nat): (a: Long)
    requires 8 * i + 7 < |b|
  {
    LongOf(b[8 * i], b[8 * i + 1], b[8 * i + 2], b[8 * i + 3], b[8 * i + 4], b[8 * i + 5], b[8 * i + 6], b[8 * i + 7])
  }

  lemma LongAtByte(b: seq<Octet>, i: nat, k: nat)
    requires 8 * i + 7 < |b| && k < 8
    ensures ByteOf(LongAt(b, i), k) == b[8 * i + k]
  {
    hide LongOf, ByteOf;
    LongRoundTrip(b[8 * i], b[8 * i + 1], b[8 * i + 2], b[8 * i + 3], b[8 * i + 4], b[8 * i + 5], b[8 * i + 6], b[8 * i + 7]);
  }
}
