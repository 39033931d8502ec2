/** Single bits of words and octets, low bits first. */
module Bits {
  import opened Longs

  /** A number below 64 in six bits. */
  function Six(n: nat): (u: bv6)
    requires n < 64
  {
    8 * Digit(n / 8) + Digit(n % 8)
  }

  function Digit(d: nat): (u: bv6)
    requires d < 8
  {
    match d
    case 0 => 0
    case 1 => 1
    case 2 => 2
    case 3 => 3
    case 4 => 4
    case 5 => 5
    case 6 => 6
    case 7 => 7
  }

  /** Bit z of a word. */
  function BitOf(a: Long, z: nat): (v: bool)
    requires z < 64
  {
    At(a, Six(z))
  }

  function At(a: Long, u: bv6): (v: bool)
  {
    (a >> u) & 1 != 0
  }

  /** Bit k of an octet. */
  function OctetBit(b: Octet, k: nat): (v: bool)
    requires k < 8
  {
    Meets(b, Mask(k))
  }

  function Meets(b: Octet, m: Octet): (v: bool)
  {
    b & m != 0
  }

  function Mask(k: nat): (b: Octet)
    requires k < 8
  {
    match k
    case 0 => 0x01
    case 1 => 0x02
    case 2 => 0x04
    case 3 => 0x08
    case 4 => 0x10
    case 5 => 0x20
    case 6 => 0x40
    case 7 => 0x80
  }

  /** Bit i of a byte string. */
  function BitAt(s: seq<Octet>, i: nat): (b: bool)
    requires i < 8 * |s|
  {
    OctetBit(s[i / 8], i % 8)
  }

  /** The sum of two bits. */
  function Plus(p: bool, q: bool): (r: bool) { p != q }

  // ----- Bitwise operations

  lemma XorAt(a: Long, b: Long, u: bv6)
    ensures At(a ^ b, u) == Plus(At(a, u), At(b, u))
  {
  }

  lemma XorBit(a: Long, b: Long, z: nat)
    requires z < 64
    ensures BitOf(Xor(a, b), z) == Plus(BitOf(a, z), BitOf(b, z))
  {
    hide At, Six;
    XorAt(a, b, Six(z));
  }

  lemma OrAt(a: Long, b: Long, u: bv6)
    ensures At(a | b, u) <==> At(a, u) || At(b, u)
  {
  }

  lemma OrBit(a: Long, b: Long, z: nat)
    requires z < 64
    ensures BitOf(Or(a, b), z) == (BitOf(a, z) || BitOf(b, z))
  {
    hide At, Six;
    OrAt(a, b, Six(z));
  }

  // ----- Rotations

  lemma SixNext(n: nat)
    requires n < 63
    ensures Six(n + 1) == Six(n) + 1 && Six(n) < 63
  {
    if n % 8 == 7 {
      assert (n + 1) / 8 == n / 8 + 1 && (n + 1) % 8 == 0;
    } else {
      assert (n + 1) / 8 == n / 8 && (n + 1) % 8 == n % 8 + 1;
    }
  }

  lemma DownAt(a: Long, u: bv6)
    requires u < 63
    ensures At(Half(a), u) == At(a, u + 1) && !At(Half(a), 63)
  {
  }

  lemma UpAt(a: Long, u: bv6)
    requires u < 63
    ensures At(Twice(a), u + 1) == At(a, u) && !At(Twice(a), 0)
  {
  }

  lemma DownBit(a: Long, z: nat)
    requires z < 64
    ensures BitOf(Half(a), z) == (z < 63 && BitOf(a, z + 1))
  {
    hide At, Half, Twice;
    DownAt(a, 0);
    assert Six(63) == 63;
    if z < 63 {
      SixNext(z);
      hide Six;
      DownAt(a, Six(z));
    }
  }

  lemma UpBit(a: Long, z: nat)
    requires z < 64
    ensures BitOf(Twice(a), z) == (z > 0 && BitOf(a, z - 1))
  {
    hide At, Half, Twice;
    UpAt(a, 0);
    assert Six(0) == 0;
    if z > 0 {
      SixNext(z - 1);
      hide Six;
      UpAt(a, Six(z - 1));
    }
  }

  lemma {:induction false} UpBits(a: Long, n: nat, z: nat)
    requires z < 64
    ensures BitOf(Up(a, n), z) == (z >= n && BitOf(a, z - n))
  {
    hide BitOf, Half, Twice;
    if n > 0 {
      UpBit(Up(a, n - 1), z);
      if z > 0 {
        UpBits(a, n - 1, z - 1);
      }
    }
  }

  lemma {:induction false} DownBits(a: Long, n: nat, z: nat)
    requires z < 64
    ensures BitOf(Down(a, n), z) == (z + n < 64 && BitOf(a, z + n))
  {
    hide BitOf, Half, Twice;
    if n > 0 {
      DownBit(Down(a, n - 1), z);
      if z < 63 {
        DownBits(a, n - 1, z + 1);
      }
    }
  }

  /** Bit z of a word turned by n places was n places below, around the end. */
  lemma RotBit(a: Long, n: nat, z: nat)
    requires n < 64 && z < 64
    ensures BitOf(Rot(a, n), z) == BitOf(a, (z + 64 - n) % 64)
  {
    hide BitOf, Up, Down, Or;
    if n > 0 {
      OrBit(Up(a, n), Down(a, 64 - n), z);
      UpBits(a, n, z);
      DownBits(a, 64 - n, z);
    }
  }

  // ----- Bytes of words

  lemma MaskAt(b: Octet, k: nat)
    requires k < 8
    ensures OctetBit(b, k) == At(b as bv64, Digit(k))
  {
    match k { case 0 => case 1 => case 2 => case 3 => case 4 => case 5 => case 6 => case 7 => }
  }

  lemma DigitBelow(k: nat)
    requires k < 8
    ensures Digit(k) < 8
  {
  }

  lemma SixOf(q: nat, k: nat)
    requires q < 8 && k < 8
    ensures Six(8 * q + k) == 8 * Digit(q) + Digit(k)
  {
    assert (8 * q + k) / 8 == q && (8 * q + k) % 8 == k;
  }

  lemma ByteAt(a: Long, q: nat, u: bv6)
    requires q < 8 && u < 8
    ensures At(ByteOf(a, q) as bv64, u) == At(a, 8 * Digit(q) + u)
  {
    match q { case 0 => case 1 => case 2 => case 3 => case 4 => case 5 => case 6 => case 7 => }
  }

  /** Bit k of byte q is bit 8q + k. */
  lemma ByteBit(a: Long, q: nat, k: nat)
    requires q < 8 && k < 8
    ensures OctetBit(ByteOf(a, q), k) == BitOf(a, 8 * q + k)
  {
    hide At, OctetBit, Six, ByteOf, Digit;
    MaskAt(ByteOf(a, q), k);
    DigitBelow(k);
    SixOf(q, k);
    ByteAt(a, q, Digit(k));
  }

  lemma MaskXor(a: Octet, b: Octet, m: Octet)
    requires m == 1 || m == 2 || m == 4 || m == 8 || m == 16 || m == 32 || m == 64 || m == 128
    ensures Meets(a ^ b, m) == Plus(Meets(a, m), Meets(b, m))
  {
  }

  lemma OctetXor(a: Octet, b: Octet, k: nat)
    requires k < 8
    ensures OctetBit(a ^ b, k) == Plus(OctetBit(a, k), OctetBit(b, k))
  {
    hide Meets, Plus;
    MaskXor(a, b, Mask(k));
  }

  /** A string of words spells their bits one after the other. */
  lemma LongBit(b: seq<Octet>, i: nat, z: nat)
    requires 8 * i + 7 < |b| && z < 64
    ensures BitOf(LongAt(b, i), z) == BitAt(b, 64 * i + z)
  {
    hide ByteOf, LongAt, OctetBit, BitOf;
    ByteBit(LongAt(b, i), z / 8, z % 8);
    LongAtByte(b, i, z / 8);
    assert (64 * i + z) / 8 == 8 * i + z / 8 && (64 * i + z) % 8 == z % 8;
  }

  // ----- Addition

  /** The carry into place z. */
  function CarryAt(a: Long, b: Long, z: nat): (c: bool)
    requires z < 64
  {
    z > 0 && Most(BitOf(a, z - 1), BitOf(b, z - 1), CarryAt(a, b, z - 1))
  }

  function Most(p: bool, q: bool, r: bool): (m: bool)
  {
    (p && q) || (p && r) || (q && r)
  }

  /** The word of the carries. */
  lemma CarriesOf(a: Long, b: Long, s: Long) returns (c: Long)
    ensures s == a ^ b ^ c
  {
    c := s ^ a ^ b;
  }

  lemma NoFirstCarry(a: Long, b: Long, c: Long)
    requires a + b == a ^ b ^ c
    ensures !At(c, 0)
  {
  }

  lemma FirstCarries(a: Long, b: Long, c: Long, u: bv6)
    requires a + b == a ^ b ^ c && u < 16
    ensures At(c, u + 1) == At((a & b) | (a & c) | (b & c), u)
  {
  }

  lemma SecondCarries(a: Long, b: Long, c: Long, u: bv6)
    requires a + b == a ^ b ^ c && 16 <= u < 32
    ensures At(c, u + 1) == At((a & b) | (a & c) | (b & c), u)
  {
  }

  lemma ThirdCarries(a: Long, b: Long, c: Long, u: bv6)
    requires a + b == a ^ b ^ c && 32 <= u < 48
    ensures At(c, u + 1) == At((a & b) | (a & c) | (b & c), u)
  {
  }

  lemma FourthCarries(a: Long, b: Long, c: Long, u: bv6)
    requires a + b == a ^ b ^ c && 48 <= u < 63
    ensures At(c, u + 1) == At((a & b) | (a & c) | (b & c), u)
  {
  }

  lemma Carried(a: Long, b: Long, c: Long, u: bv6)
    requires a + b == a ^ b ^ c && u < 63
    ensures At(c, u + 1) == At((a & b) | (a & c) | (b & c), u)
  {
    hide At;
    if u < 16 {
      FirstCarries(a, b, c, u);
    } else if u < 32 {
      SecondCarries(a, b, c, u);
    } else if u < 48 {
      ThirdCarries(a, b, c, u);
    } else {
      FourthCarries(a, b, c, u);
    }
  }

  lemma MostAt(a: Long, b: Long, c: Long, u: bv6)
    ensures At((a & b) | (a & c) | (b & c), u) == Most(At(a, u), At(b, u), At(c, u))
  {
  }

  lemma CarryNext(a: Long, b: Long, c: Long, z: nat)
    requires 0 < z < 64 && a + b == a ^ b ^ c
    ensures BitOf(c, z) == Most(BitOf(a, z - 1), BitOf(b, z - 1), BitOf(c, z - 1))
  {
    hide At, Six, Most;
    SixNext(z - 1);
    Carried(a, b, c, Six(z - 1));
    MostAt(a, b, c, Six(z - 1));
  }

  lemma {:induction false} CarryBit(a: Long, b: Long, c: Long, z: nat)
    requires z < 64 && a + b == a ^ b ^ c
    ensures BitOf(c, z) == CarryAt(a, b, z)
  {
    hide At, Most;
    if z > 0 {
      CarryBit(a, b, c, z - 1);
      CarryNext(a, b, c, z);
    } else {
      NoFirstCarry(a, b, c);
      assert Six(0) == 0;
    }
  }

  lemma SumAt(a: Long, b: Long, c: Long, u: bv6)
    ensures At(a ^ b ^ c, u) == Plus(Plus(At(a, u), At(b, u)), At(c, u))
  {
  }

  /** Words are added a place at a time from the lowest, and the last carry is lost. */
  lemma SumBit(a: Long, b: Long, s: Long, z: nat)
    requires z < 64 && s == a + b
    ensures BitOf(s, z) == Plus(Plus(BitOf(a, z), BitOf(b, z)), CarryAt(a, b, z))
  {
    hide At, Six, CarryAt, Plus;
    var c := CarriesOf(a, b, s);
    CarryBit(a, b, c, z);
    SumAt(a, b, c, Six(z));
  }
}
