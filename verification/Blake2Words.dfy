/** What the words of BLAKE2b are, as RFC 7693 says it of numbers and bits: the sums and
    rotations of G, the initialization vector, the counter, the flag and the parameters. */
module Blake2Words {
  import opened Bits
  import opened Blake2b
  import opened Blake2x
  import opened Congruence
  import opened Longs
  import opened Powers
  import opened Words
  import F = Blake2F

  // ----- Words as numbers

  function BitValue(v: bool): (n: nat)
  {
    if v then 1 else 0
  }

  /** The number that the lowest n bits of a word spell. */
  function Low(a: Long, n: nat): (v: nat)
    requires n <= 64
  {
    if n == 0 then 0 else Low(a, n - 1) + BitValue(BitOf(a, n - 1)) * Pow2(n - 1)
  }

  function Num(a: Long): (v: nat)
  {
    Low(a, 64)
  }

  lemma {:induction false} LowBound(a: Long, n: nat)
    requires n <= 64
    ensures Low(a, n) < Pow2(n)
  {
    hide BitOf;
    if n > 0 {
      LowBound(a, n - 1);
    }
  }

  lemma NumBound(a: Long)
    ensures Num(a) < W
  {
    hide Low;
    LowBound(a, 64);
    Pow2Radix(64, 384);
  }

  /** The carry into place n. */
  function CarryInto(a: Long, b: Long, n: nat): (c: bool)
    requires n <= 64
  {
    n > 0 && Most(BitOf(a, n - 1), BitOf(b, n - 1), CarryAt(a, b, n - 1))
  }

  /** Adding the lowest bits leaves a carry. */
  lemma {:induction false} LowSum(a: Long, b: Long, s: Long, n: nat)
    requires n <= 64 && s == a + b
    ensures Low(a, n) + Low(b, n) == Low(s, n) + BitValue(CarryInto(a, b, n)) * Pow2(n)
  {
    hide BitOf;
    if n > 0 {
      LowSum(a, b, s, n - 1);
      SumBit(a, b, s, n - 1);
    }
  }

  lemma CarryOut(a: Long, b: Long, s: Long) returns (c: nat)
    requires s == a + b
    ensures Num(a) + Num(b) == Num(s) + c * W
  {
    hide Low, CarryInto;
    LowSum(a, b, s, 64);
    c := BitValue(CarryInto(a, b, 64));
    Pow2Radix(64, 384);
  }

  /** The sum of words is the sum of numbers modulo 2^64. */
  lemma SumOfWords(a: Long, b: Long, s: Long)
    requires s == F.Plus(a, b)
    ensures Num(s) == (Num(a) + Num(b)) % W
  {
    var c := CarryOut(a, b, s);
    hide Num, F.Plus;
    NumBound(s);
    RemainderUnique(Num(s), c, W, Num(a) + Num(b));
  }

  /** The rotation to the right that G is made of. */
  lemma RotatedRight(a: Long, n: nat, z: nat)
    requires 0 < n <= 64 && z < 64
    ensures BitOf(Rot(a, 64 - n), z) == BitOf(a, (z + n) % 64)
  {
    hide BitOf, Rot;
    RotBit(a, 64 - n, z);
  }

  // ----- Section 3.1 of RFC 7693

  /** r is (p ^ q) >>> n. */
  ghost predicate TurnedSum(r: Long, p: Long, q: Long, n: nat)
  {
    forall z: nat :: z < 64 ==> BitOf(r, z) == Plus(BitOf(p, (z + n) % 64), BitOf(q, (z + n) % 64))
  }

  /** v[a] := (v[a] + v[b] + x) mod 2^64; v[d] := (v[d] ^ v[a]) >>> n;
      v[c] := (v[c] + v[d]) mod 2^64; v[b] := (v[b] ^ v[c]) >>> k. */
  ghost predicate HalfOfG(v: seq<Long>, w: seq<Long>, a: F.Index, b: F.Index, c: F.Index, d: F.Index, x: Long, n: nat, k: nat)
    requires |v| == 16 && |w| == 16
  {
    && Num(w[a]) == (Num(v[a]) + Num(v[b]) + Num(x)) % W
    && TurnedSum(w[d], v[d], w[a], n)
    && Num(w[c]) == (Num(v[c]) + Num(w[d])) % W
    && TurnedSum(w[b], v[b], w[c], k)
    && F.SameBut(v, w, a, b, c, d)
  }

  lemma XorRotated(p: Long, q: Long, n: nat)
    requires 0 < n <= 64
    ensures TurnedSum(Rot(Xor(p, q), 64 - n), p, q, n)
  {
    hide BitOf, Rot, Xor, Plus;
    var r := Rot(Xor(p, q), 64 - n);
    forall z: nat | z < 64
      ensures BitOf(r, z) == Plus(BitOf(p, (z + n) % 64), BitOf(q, (z + n) % 64))
    {
      RotatedRight(Xor(p, q), n, z);
      XorBit(p, q, (z + n) % 64);
    }
  }

  lemma ThreeWords(a: Long, b: Long, x: Long)
    ensures Num(F.Plus(F.Plus(a, b), x)) == (Num(a) + Num(b) + Num(x)) % W
  {
    hide F.Plus, Num;
    SumOfWords(a, b, F.Plus(a, b));
    SumOfWords(F.Plus(a, b), x, F.Plus(F.Plus(a, b), x));
    ModShift(Num(a) + Num(b), Num(x), W);
  }

  lemma HalfIs(v: seq<Long>, a: F.Index, b: F.Index, c: F.Index, d: F.Index, x: Long, n: nat, k: nat)
    requires |v| == 16 && 0 < n <= 64 && 0 < k <= 64 && F.Apart(a, b, c, d)
    ensures HalfOfG(v, F.MixHalf(v, a, b, c, d, x, n, k), a, b, c, d, x, n, k)
  {
    hide F.Plus, Num, Rot, Xor, TurnedSum;
    var w := F.MixHalf(v, a, b, c, d, x, n, k);
    ThreeWords(v[a], v[b], x);
    XorRotated(v[d], w[a], n);
    SumOfWords(v[c], w[d], w[c]);
    XorRotated(v[b], w[c], k);
  }

  /** G turns by 32, 24, 16 and 63. */
  lemma GIs(v: seq<Long>, a: F.Index, b: F.Index, c: F.Index, d: F.Index, x: Long, y: Long)
    requires |v| == 16 && F.Apart(a, b, c, d)
    ensures exists u: seq<Long> :: |u| == 16 && HalfOfG(v, u, a, b, c, d, x, 32, 24)
                                  && HalfOfG(u, F.Mix(v, a, b, c, d, x, y), a, b, c, d, y, 16, 63)
  {
    hide HalfOfG, F.MixHalf;
    var u := F.MixHalf(v, a, b, c, d, x, 32, 24);
    HalfIs(v, a, b, c, d, x, 32, 24);
    HalfIs(u, a, b, c, d, y, 16, 63);
  }

  // ----- Section 2.6: the initialization vector

  const PRIMES: seq<nat> := [2, 3, 5, 7, 11, 13, 17, 19]
  const FLOORS: seq<nat> := [1, 1, 2, 2, 3, 3, 4, 4]

  /** Word i is the integer part of 2^64 times the fraction of the root of the i-th prime. */
  lemma IvIsRoot(i: nat)
    requires i < 8
    ensures FLOORS[i] * FLOORS[i] <= PRIMES[i] < (FLOORS[i] + 1) * (FLOORS[i] + 1)
    ensures var n := FLOORS[i] * W + F.IV[i] as nat;
            n * n <= PRIMES[i] * W2 < (n + 1) * (n + 1)
  {
    match i { case 0 => case 1 => case 2 => case 3 => case 4 => case 5 => case 6 => case 7 => }
  }

  // ----- Sections 3.2 and 2.1: counter and flag

  /** The number that eight bits spell, low bits first. */
  function BitsNum(b0: bool, b1: bool, b2: bool, b3: bool, b4: bool, b5: bool, b6: bool, b7: bool): (n: nat)
  {
    BitValue(b0) + 2 * BitValue(b1) + 4 * BitValue(b2) + 8 * BitValue(b3)
    + 16 * BitValue(b4) + 32 * BitValue(b5) + 64 * BitValue(b6) + 128 * BitValue(b7)
  }

  function OctetNum(b: Octet): (n: nat)
  {
    BitsNum(OctetBit(b, 0), OctetBit(b, 1), OctetBit(b, 2), OctetBit(b, 3),
            OctetBit(b, 4), OctetBit(b, 5), OctetBit(b, 6), OctetBit(b, 7))
  }

  /** An octet put together from its bits. */
  lemma OctetOfBits(b0: bool, b1: bool, b2: bool, b3: bool, b4: bool, b5: bool, b6: bool, b7: bool)
    ensures OctetNum(OctetOfMasks(b0, b1, b2, b3, b4, b5, b6, b7)) == BitsNum(b0, b1, b2, b3, b4, b5, b6, b7)
  {
    hide BitsNum;
  }

  /** The octet of a number spells the number. */
  lemma OctetSpells(x: nat)
    requires x < 256
    ensures OctetNum(OctetOf(x)) == x
  {
    hide OctetNum, OctetOfMasks, BitsNum;
    OctetOfBits(x % 2 == 1, x / 2 % 2 == 1, x / 4 % 2 == 1, x / 8 % 2 == 1, x / 16 % 2 == 1, x / 32 % 2 == 1, x / 64 % 2 == 1,
                x / 128 % 2 == 1);
    BinarySpells(x);
  }

  lemma Halves(x: nat)
    ensures x / 4 == x / 2 / 2 && x / 8 == x / 4 / 2 && x / 16 == x / 8 / 2 && x / 32 == x / 16 / 2
    ensures x / 64 == x / 32 / 2 && x / 128 == x / 64 / 2
  {
  }

  lemma Binary(x: nat, h: nat)
    requires h == x / 2
    ensures x == BitValue(x % 2 == 1) + 2 * h
  {
  }

  lemma BinarySpells(x: nat)
    requires x < 256
    ensures BitsNum(x % 2 == 1, x / 2 % 2 == 1, x / 4 % 2 == 1, x / 8 % 2 == 1, x / 16 % 2 == 1, x / 32 % 2 == 1,
                    x / 64 % 2 == 1, x / 128 % 2 == 1) == x
  {
    var x1, x2, x3, x4, x5, x6, x7 := x / 2, x / 4, x / 8, x / 16, x / 32, x / 64, x / 128;
    Halves(x);
    assert x7 / 2 == 0;
    Digits(x, x1, x2, x3, x4, x5, x6, x7);
  }

  lemma Digits(x: nat, x1: nat, x2: nat, x3: nat, x4: nat, x5: nat, x6: nat, x7: nat)
    requires x1 == x / 2 && x2 == x1 / 2 && x3 == x2 / 2 && x4 == x3 / 2 && x5 == x4 / 2 && x6 == x5 / 2 && x7 == x6 / 2
    requires x7 / 2 == 0
    ensures BitsNum(x % 2 == 1, x1 % 2 == 1, x2 % 2 == 1, x3 % 2 == 1, x4 % 2 == 1, x5 % 2 == 1, x6 % 2 == 1, x7 % 2 == 1) == x
  {
    hide BitValue;
    Binary(x, x1);
    Binary(x1, x2);
    Binary(x2, x3);
    Binary(x3, x4);
    Binary(x4, x5);
    Binary(x5, x6);
    Binary(x6, x7);
    Binary(x7, 0);
  }

  /** The bits n and n + 1. */
  function Pair(a: Long, n: nat): (t: nat)
    requires n + 2 <= 64
  {
    BitValue(BitOf(a, n)) + 2 * BitValue(BitOf(a, n + 1))
  }

  lemma LowPair(a: Long, n: nat, p: nat)
    requires n + 2 <= 64 && p == Pow2(n)
    ensures Low(a, n + 2) == Low(a, n) + Pair(a, n) * p && Pow2(n + 2) == 4 * p
  {
    hide BitOf;
    assert Pow2(n + 1) == 2 * p;
    assert Low(a, n + 1) == Low(a, n) + BitValue(BitOf(a, n)) * p;
    assert Low(a, n + 2) == Low(a, n + 1) + BitValue(BitOf(a, n + 1)) * (2 * p);
  }

  lemma Gather(u: nat, v: nat, m: nat, p: nat)
    ensures u * p + v * (m * p) == (u + m * v) * p
  {
    assert v * (m * p) == (m * v) * p;
  }

  lemma FourPairs(t0: nat, t1: nat, t2: nat, t3: nat, p: nat)
    ensures t0 * p + t1 * (4 * p) + t2 * (16 * p) + t3 * (64 * p) == (t0 + 4 * t1 + 16 * t2 + 64 * t3) * p
  {
    Gather(t0, t1, 4, p);
    Gather(t0 + 4 * t1, t2, 16, p);
    Gather(t0 + 4 * t1 + 16 * t2, t3, 64, p);
  }

  lemma LowPairs(a: Long, n: nat, p: nat)
    requires n + 8 <= 64 && p == Pow2(n)
    ensures Low(a, n + 8) == Low(a, n) + (Pair(a, n) + 4 * Pair(a, n + 2) + 16 * Pair(a, n + 4) + 64 * Pair(a, n + 6)) * p
  {
    hide Low, Pow2, Pair;
    LowPair(a, n, p);
    LowPair(a, n + 2, 4 * p);
    LowPair(a, n + 4, 16 * p);
    LowPair(a, n + 6, 64 * p);
    FourPairs(Pair(a, n), Pair(a, n + 2), Pair(a, n + 4), Pair(a, n + 6), p);
  }

  lemma PairsAre(a: Long, n: nat)
    requires n + 8 <= 64
    ensures Pair(a, n) + 4 * Pair(a, n + 2) + 16 * Pair(a, n + 4) + 64 * Pair(a, n + 6)
         == BitsNum(BitOf(a, n), BitOf(a, n + 1), BitOf(a, n + 2), BitOf(a, n + 3),
                    BitOf(a, n + 4), BitOf(a, n + 5), BitOf(a, n + 6), BitOf(a, n + 7))
  {
    hide BitOf, BitValue;
  }

  lemma OctetIs(a: Long, q: nat)
    requires q < 8
    ensures var n := 8 * q;
            OctetNum(ByteOf(a, q)) == BitsNum(BitOf(a, n), BitOf(a, n + 1), BitOf(a, n + 2), BitOf(a, n + 3),
                                              BitOf(a, n + 4), BitOf(a, n + 5), BitOf(a, n + 6), BitOf(a, n + 7))
  {
    hide BitOf, OctetBit, ByteOf, BitsNum;
    ByteBit(a, q, 0);
    ByteBit(a, q, 1);
    ByteBit(a, q, 2);
    ByteBit(a, q, 3);
    ByteBit(a, q, 4);
    ByteBit(a, q, 5);
    ByteBit(a, q, 6);
    ByteBit(a, q, 7);
  }

  lemma LowByte(a: Long, q: nat, p: nat)
    requires q < 8 && p == Pow2(8 * q)
    ensures Low(a, 8 * q + 8) == Low(a, 8 * q) + OctetNum(ByteOf(a, q)) * p
  {
    hide Low, Pow2, Pair, OctetNum, ByteOf, BitsNum, BitOf;
    LowPairs(a, 8 * q, p);
    PairsAre(a, 8 * q);
    OctetIs(a, q);
  }

  /** The number that the bytes of a word spell. */
  lemma NumBytes(a: Long)
    ensures Num(a) == OctetNum(ByteOf(a, 0)) + OctetNum(ByteOf(a, 1)) * 0x100 + OctetNum(ByteOf(a, 2)) * 0x1_0000
                    + OctetNum(ByteOf(a, 3)) * 0x100_0000 + OctetNum(ByteOf(a, 4)) * 0x1_0000_0000
                    + OctetNum(ByteOf(a, 5)) * 0x100_0000_0000 + OctetNum(ByteOf(a, 6)) * 0x1_0000_0000_0000
                    + OctetNum(ByteOf(a, 7)) * 0x100_0000_0000_0000
  {
    assert Low(a, 0) == 0;
    Octaves();
    hide Low, Pow2, OctetNum, ByteOf;
    LowByte(a, 0, 1);
    LowByte(a, 1, 0x100);
    LowByte(a, 2, 0x1_0000);
    LowByte(a, 3, 0x100_0000);
    LowByte(a, 4, 0x1_0000_0000);
    LowByte(a, 5, 0x100_0000_0000);
    LowByte(a, 6, 0x1_0000_0000_0000);
    LowByte(a, 7, 0x100_0000_0000_0000);
  }

  lemma Octaves()
    ensures Pow2(0) == 1 && Pow2(8) == 0x100 && Pow2(16) == 0x1_0000 && Pow2(24) == 0x100_0000 && Pow2(32) == 0x1_0000_0000
    ensures Pow2(40) == 0x100_0000_0000 && Pow2(48) == 0x1_0000_0000_0000 && Pow2(56) == 0x100_0000_0000_0000
  {
    assert Pow2(8) == 0x100;
    hide Pow2;
    Pow2Add(8, 8);
    Pow2Add(16, 8);
    Pow2Add(24, 8);
    Pow2Add(32, 8);
    Pow2Add(40, 8);
    Pow2Add(48, 8);
  }

  lemma AsLongByte(c: Word, i: nat)
    requires i < 8
    ensures ByteOf(AsLong(c), i) == NumByte(c, i)
  {
    hide ByteOf, LongOf, NumByte;
    LongRoundTrip(NumByte(c, 0), NumByte(c, 1), NumByte(c, 2), NumByte(c, 3),
                  NumByte(c, 4), NumByte(c, 5), NumByte(c, 6), NumByte(c, 7));
  }

  lemma NumByteSpells(c: Word, i: nat)
    requires i < 8
    ensures OctetNum(NumByte(c, i))
         == [c % 0x100, c / 0x100 % 0x100, c / 0x1_0000 % 0x100, c / 0x100_0000 % 0x100, c / 0x1_0000_0000 % 0x100,
             c / 0x100_0000_0000 % 0x100, c / 0x1_0000_0000_0000 % 0x100, c / 0x100_0000_0000_0000 % 0x100][i]
  {
    hide OctetOf, OctetNum;
    match i
    case 0 => OctetSpells(c % 0x100);
    case 1 => OctetSpells(c / 0x100 % 0x100);
    case 2 => OctetSpells(c / 0x1_0000 % 0x100);
    case 3 => OctetSpells(c / 0x100_0000 % 0x100);
    case 4 => OctetSpells(c / 0x1_0000_0000 % 0x100);
    case 5 => OctetSpells(c / 0x100_0000_0000 % 0x100);
    case 6 => OctetSpells(c / 0x1_0000_0000_0000 % 0x100);
    case 7 => OctetSpells(c / 0x100_0000_0000_0000 % 0x100);
  }

  /** The number that byte i of a number spells, when that is the byte of its word. */
  lemma WordByte(c: Word, i: nat, n: nat)
    requires i < 8
    requires n == [c % 0x100, c / 0x100 % 0x100, c / 0x1_0000 % 0x100, c / 0x100_0000 % 0x100, c / 0x1_0000_0000 % 0x100,
                   c / 0x100_0000_0000 % 0x100, c / 0x1_0000_0000_0000 % 0x100, c / 0x100_0000_0000_0000 % 0x100][i]
    ensures OctetNum(ByteOf(AsLong(c), i)) == n
  {
    hide OctetNum, ByteOf, AsLong, NumByte;
    AsLongByte(c, i);
    NumByteSpells(c, i);
  }

  lemma Nested(c: nat)
    ensures c / 0x1_0000 == c / 0x100 / 0x100 && c / 0x100_0000 == c / 0x1_0000 / 0x100
    ensures c / 0x1_0000_0000 == c / 0x100_0000 / 0x100 && c / 0x100_0000_0000 == c / 0x1_0000_0000 / 0x100
    ensures c / 0x1_0000_0000_0000 == c / 0x100_0000_0000 / 0x100
    ensures c / 0x100_0000_0000_0000 == c / 0x1_0000_0000_0000 / 0x100
  {
  }

  lemma DigitsSpell(c: Word)
    ensures c == c % 0x100 + c / 0x100 % 0x100 * 0x100 + c / 0x1_0000 % 0x100 * 0x1_0000 + c / 0x100_0000 % 0x100 * 0x100_0000
               + c / 0x1_0000_0000 % 0x100 * 0x1_0000_0000 + c / 0x100_0000_0000 % 0x100 * 0x100_0000_0000
               + c / 0x1_0000_0000_0000 % 0x100 * 0x1_0000_0000_0000 + c / 0x100_0000_0000_0000 % 0x100 * 0x100_0000_0000_0000
  {
    Nested(c);
    var c1, c2, c3, c4 := c / 0x100, c / 0x1_0000, c / 0x100_0000, c / 0x1_0000_0000;
    var c5, c6, c7 := c / 0x100_0000_0000, c / 0x1_0000_0000_0000, c / 0x100_0000_0000_0000;
    assert c == c % 0x100 + 0x100 * c1 && c1 == c1 % 0x100 + 0x100 * c2 && c2 == c2 % 0x100 + 0x100 * c3;
    assert c3 == c3 % 0x100 + 0x100 * c4 && c4 == c4 % 0x100 + 0x100 * c5 && c5 == c5 % 0x100 + 0x100 * c6;
    assert c6 == c6 % 0x100 + 0x100 * c7 && c7 == c7 % 0x100;
  }

  /** A number as a word, such as either half of the counter, spells the number. */
  lemma WordSpells(c: Word)
    ensures Num(AsLong(c)) == c
  {
    hide Num, AsLong, OctetNum, ByteOf;
    NumBytes(AsLong(c));
    WordByte(c, 0, c % 0x100);
    WordByte(c, 1, c / 0x100 % 0x100);
    WordByte(c, 2, c / 0x1_0000 % 0x100);
    WordByte(c, 3, c / 0x100_0000 % 0x100);
    WordByte(c, 4, c / 0x1_0000_0000 % 0x100);
    WordByte(c, 5, c / 0x100_0000_0000 % 0x100);
    WordByte(c, 6, c / 0x1_0000_0000_0000 % 0x100);
    WordByte(c, 7, c / 0x100_0000_0000_0000 % 0x100);
    DigitsSpell(c);
  }

  /** The flag of the last block has every bit, and that of the others none. */
  lemma FlagBits(last: bool, z: nat)
    requires z < 64
    ensures BitOf(Flag(last), z) == last
  {
    hide Six;
    AllOrNone(Six(z));
  }

  lemma AllOrNone(u: bv6)
    ensures At(0xFFFF_FFFF_FFFF_FFFF, u) && !At(0, u)
  {
  }

  /** v[0..7] is the chain value, v[8..15] the vector; v[12] and v[13] are added to the two
      words of the counter, and v[14] is inverted for the last block. */
  lemma WorkingIs(h: F.Chain, c0: Long, c1: Long, last: bool, i: nat, z: nat)
    requires i < 16 && z < 64
    ensures var v := F.Working(h, c0, c1, Flag(last));
            BitOf(v[i], z) == if i < 8 then BitOf(h[i], z)
                              else if i == 12 then Plus(BitOf(F.IV[4], z), BitOf(c0, z))
                              else if i == 13 then Plus(BitOf(F.IV[5], z), BitOf(c1, z))
                              else if i == 14 then Plus(BitOf(F.IV[6], z), last)
                              else BitOf(F.IV[i - 8], z)
  {
    hide BitOf, Xor, Plus, Flag;
    XorBit(F.IV[4], c0, z);
    XorBit(F.IV[5], c1, z);
    XorBit(F.IV[6], Flag(last), z);
    FlagBits(last, z);
  }

  // ----- Section 2.5: the parameters

  lemma OctetOfLong(n: nat, b: Octet)
    requires n <= 64 && b == n as bv8
    ensures b as bv64 == n as bv64
  {
  }

  lemma FirstWord(b: Octet, k: Octet)
    ensures LongOf(b, k, 1, 1, 0, 0, 0, 0) == (b as bv64) | ((k as bv64) << 8) | (1 << 16) | (1 << 24)
  {
  }

  lemma NoWord()
    ensures LongOf(0, 0, 0, 0, 0, 0, 0, 0) == 0
  {
  }

  lemma UpperWord(b0: Octet, b1: Octet, b2: Octet, b3: Octet)
    ensures LongOf(0, 0, 0, 0, b0, b1, b2, b3) == LongOf(b0, b1, b2, b3, 0, 0, 0, 0) << 32
  {
  }

  lemma XorNothing(a: Long)
    ensures Xor(a, 0) == a
  {
  }

  /** The word that the source computes is the first of the parameter block: digest size,
      key length, fanout and depth one, a byte each. */
  lemma FirstWordIs(size: nat, keyLen: nat)
    requires size <= SIZE && keyLen <= SIZE
    ensures LongOf(size as bv8, keyLen as bv8, 1, 1, 0, 0, 0, 0)
         == (size as bv64) | ((keyLen as bv64) << 8) | (1 << 16) | (1 << 24)
  {
    OctetOfLong(size, size as bv8);
    OctetOfLong(keyLen, keyLen as bv8);
    FirstWord(size as bv8, keyLen as bv8);
  }

  /** A parameter block in eight words: zeros but for the first two. */
  lemma TwoWords(p: Sum64, first: Long, second: Long)
    requires LongAt(p, 0) == first && LongAt(p, 1) == second && forall j :: 16 <= j < 64 ==> p[j] == 0
    ensures Configured(p) == F.IV[0 := Xor(F.IV[0], first)][1 := Xor(F.IV[1], second)]
  {
    NoWord();
    hide LongOf, Xor;
    forall i | 2 <= i < 8
      ensures ConfiguredWord(p, i) == F.IV[i]
    {
      XorNothing(F.IV[i]);
    }
  }

  /** A digest starts from the block of its size and key length, a sequential hash. */
  lemma StartIs(size: nat, keyLen: nat)
    requires size <= SIZE && keyLen <= SIZE
    ensures Start(size, keyLen) == Configured([size as bv8, keyLen as bv8, 1, 1] + Zeros(60))
  {
    var p: Sum64 := [size as bv8, keyLen as bv8, 1, 1] + Zeros(60);
    FirstWordIs(size, keyLen);
    NoWord();
    XorNothing(F.IV[1]);
    hide LongOf, Xor;
    TwoWords(p, LongAt(p, 0), 0);
  }

  function RootBlock(x: Params): (p: Sum64)
    requires Fits(x)
  {
    [64, |x.key| as bv8, 1, 1] + Zeros(8) + Bytes32(x.length) + Zeros(48)
  }

  lemma RootWords(x: Params)
    requires Fits(x)
    ensures LongAt(RootBlock(x), 0) == LongOf(64, |x.key| as bv8, 1, 1, 0, 0, 0, 0)
    ensures LongAt(RootBlock(x), 1) == LongOf(0, 0, 0, 0, NumByte(x.length, 0), NumByte(x.length, 1), NumByte(x.length, 2),
                                              NumByte(x.length, 3))
    ensures forall j :: 16 <= j < 64 ==> RootBlock(x)[j] == 0
  {
    hide LongOf, NumByte;
  }

  /** The root of BLAKE2X: the same block with the length of the output in its bytes 12 to 15. */
  lemma RootStartIs(x: Params)
    requires Fits(x)
    ensures RootStart(x) == Configured([64, |x.key| as bv8, 1, 1] + Zeros(8) + Bytes32(x.length) + Zeros(48))
  {
    var p := RootBlock(x);
    assert p == [64, |x.key| as bv8, 1, 1] + Zeros(8) + Bytes32(x.length) + Zeros(48);
    RootWords(x);
    FirstWordIs(64, |x.key|);
    LengthWord(x.length);
    hide LongOf, Xor, NumByte, AsLong, RootBlock, Configured, LongAt, Bytes32, Zeros;
    TwoWords(p, LongAt(p, 0), LongAt(p, 1));
  }

  lemma LengthWord(n: nat)
    requires n < W32
    ensures AsLong(n) << 32 == LongOf(0, 0, 0, 0, NumByte(n, 0), NumByte(n, 1), NumByte(n, 2), NumByte(n, 3))
  {
    assert NumByte(n, 4) == NumByte(n, 5) == NumByte(n, 6) == NumByte(n, 7) == 0;
    hide NumByte;
    UpperWord(NumByte(n, 0), NumByte(n, 1), NumByte(n, 2), NumByte(n, 3));
  }

  /** The four bytes of a number spell it. */
  lemma Bytes32Spells(n: nat)
    requires n < W32
    ensures var b := Bytes32(n);
            n == OctetNum(b[0]) + OctetNum(b[1]) * 0x100 + OctetNum(b[2]) * 0x1_0000 + OctetNum(b[3]) * 0x100_0000
  {
    hide NumByte, OctetNum, OctetOf;
    NumByteSpells(n, 0);
    NumByteSpells(n, 1);
    NumByteSpells(n, 2);
    NumByteSpells(n, 3);
    FourDigits(n);
  }

  lemma FourDigits(n: nat)
    requires n < W32
    ensures n == n % 0x100 + n / 0x100 % 0x100 * 0x100 + n / 0x1_0000 % 0x100 * 0x1_0000 + n / 0x100_0000 % 0x100 * 0x100_0000
  {
    DigitsSpell(n);
  }

  /** The number that the four octets of a block at a place spell. */
  function Num32(p: Sum64, at: nat): (n: nat)
    requires at <= 60
  {
    OctetNum(p[at]) + OctetNum(p[at + 1]) * 0x100 + OctetNum(p[at + 2]) * 0x1_0000 + OctetNum(p[at + 3]) * 0x100_0000
  }

  /** The parameter block of a BLAKE2X node: its size, no key, unlimited fanout and depth as
      zeros, leaf length and inner length 64, the index of the node, the output length. */
  ghost predicate NodeBlock(p: Sum64, size: nat, index: nat, length: nat)
    requires size <= SIZE
  {
    hide OctetNum;
    && p[0] == size as bv8 && (forall j :: 1 <= j < 4 ==> p[j] == 0)
    && Num32(p, 4) == 64 && Num32(p, 8) == index && Num32(p, 12) == length
    && p[16] == 0 && p[17] == 64 && forall j :: 18 <= j < 64 ==> p[j] == 0
  }

  lemma NodeBlockIs(size: nat, index: nat, length: nat)
    requires size <= SIZE && index < W32 && length < W32
    ensures NodeBlock(Config(size, index, length), size, index, length)
  {
    hide Config, Bytes32, Num32;
    var p := Config(size, index, length);
    ConfigPieces(size, index, length);
    assert p[0] == p[..1][0];
    assert forall j :: 1 <= j < 4 ==> p[j] == p[1..4][j - 1];
    Four(p, 4, SIZE);
    Four(p, 8, index);
    Four(p, 12, length);
    assert p[16] == p[16..18][0] && p[17] == p[16..18][1];
    assert forall j :: 18 <= j < 64 ==> p[j] == p[18..][j - 18];
  }

  lemma Four(p: Sum64, at: nat, n: nat)
    requires at <= 60 && n < W32 && p[at..at + 4] == Bytes32(n)
    ensures Num32(p, at) == n
  {
    hide OctetNum, Bytes32;
    Bytes32Spells(n);
    var b := p[at..at + 4];
    assert b[0] == p[at] && b[1] == p[at + 1] && b[2] == p[at + 2] && b[3] == p[at + 3];
  }

  // ----- Section 3.2: the result

  /** h[i] ^ v[i] ^ v[i + 8] */
  lemma FoldedIs(h: F.Chain, v: seq<Long>, i: nat, z: nat)
    requires |v| == 16 && i < 8 && z < 64
    ensures BitOf(F.Folded(h, v)[i], z) == Plus(Plus(BitOf(h[i], z), BitOf(v[i], z)), BitOf(v[i + 8], z))
  {
    hide BitOf, Xor;
    XorBit(v[i], v[i + 8], z);
    XorBit(h[i], Xor(v[i], v[i + 8]), z);
  }
}
