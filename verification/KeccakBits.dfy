/** The step mappings of sections 3.2 and 3.3 of FIPS 202 on single bits, and the proof that
    the permutation on lanes is made of them. */
module KeccakBits {
  import opened Bits
  import opened Longs
  import K = Keccak

  /** A[x, y, z]. */
  type Cube = (nat, nat, nat) -> bool

  function CubeOf(s: seq<Long>): (a: Cube)
    requires K.IsState(s)
  {
    (x: nat, y: nat, z: nat) => x < 5 && y < 5 && z < 64 && BitOf(s[x + 5 * y], z)
  }

  ghost predicate Same(a: Cube, b: Cube)
  {
    forall x: nat, y: nat, z: nat :: x < 5 && y < 5 && z < 64 ==> a(x, y, z) == b(x, y, z)
  }

  // ----- Section 3.2

  function ColumnParity(a: Cube, x: nat, z: nat): (p: bool)
  {
    Plus(Plus(Plus(Plus(a(x, 0, z), a(x, 1, z)), a(x, 2, z)), a(x, 3, z)), a(x, 4, z))
  }

  function ThetaBit(a: Cube, x: nat, y: nat, z: nat): (v: bool)
  {
    Plus(a(x, y, z), Plus(ColumnParity(a, (x + 4) % 5, z), ColumnParity(a, (x + 1) % 5, (z + 63) % 64)))
  }

  function RhoBit(a: Cube, x: nat, y: nat, z: nat): (v: bool)
    requires x < 5 && y < 5
  {
    a(x, y, (z + 64 - K.Offset(x + 5 * y)) % 64)
  }

  function PiBit(a: Cube, x: nat, y: nat, z: nat): (v: bool)
  {
    a((x + 3 * y) % 5, x, z)
  }

  function ChiBit(a: Cube, x: nat, y: nat, z: nat): (v: bool)
  {
    Plus(a(x, y, z), !a((x + 1) % 5, y, z) && a((x + 2) % 5, y, z))
  }

  function IotaBit(a: Cube, i: nat, x: nat, y: nat, z: nat): (v: bool)
  {
    Plus(a(x, y, z), x == 0 && y == 0 && ConstantBit(i, z))
  }

  /** Algorithm 5: the first bit of the register R after t steps, each of which puts a zero
      in front, adds the ninth bit to the bits 0, 4, 5 and 6, and drops it. */
  function RegisterBits(t: nat): (r: seq<bool>)
    ensures |r| == 8
  {
    if t == 0 then [true, false, false, false, false, false, false, false]
    else
      var r := RegisterBits(t - 1);
      [Plus(false, r[7]), r[0], r[1], r[2], Plus(r[3], r[7]), Plus(r[4], r[7]), Plus(r[5], r[7]), r[6]]
  }

  /** Algorithm 6: the bits 2^j - 1 of the constant of round i; all others are zero. */
  function ConstantBit(i: nat, z: nat): (v: bool)
  {
    AtPlaces(RegisterBits(7 * i)[0], RegisterBits(7 * i + 1)[0], RegisterBits(7 * i + 2)[0], RegisterBits(7 * i + 3)[0],
             RegisterBits(7 * i + 4)[0], RegisterBits(7 * i + 5)[0], RegisterBits(7 * i + 6)[0], z)
  }

  function AtPlaces(b0: bool, b1: bool, b2: bool, b3: bool, b4: bool, b5: bool, b6: bool, z: nat): (v: bool)
  {
    match z
    case 0 => b0
    case 1 => b1
    case 3 => b2
    case 7 => b3
    case 15 => b4
    case 31 => b5
    case 63 => b6
    case _ => false
  }

  function Theta(a: Cube): (b: Cube) { (x: nat, y: nat, z: nat) => ThetaBit(a, x, y, z) }

  function Rho(a: Cube): (b: Cube) { (x: nat, y: nat, z: nat) => x < 5 && y < 5 && RhoBit(a, x, y, z) }

  function Pi(a: Cube): (b: Cube) { (x: nat, y: nat, z: nat) => PiBit(a, x, y, z) }

  function Chi(a: Cube): (b: Cube) { (x: nat, y: nat, z: nat) => ChiBit(a, x, y, z) }

  function Iota(a: Cube, i: nat): (b: Cube) { (x: nat, y: nat, z: nat) => IotaBit(a, i, x, y, z) }

  // ----- Section 3.3

  function Round(a: Cube, i: nat): (b: Cube)
  {
    Iota(Chi(Pi(Rho(Theta(a)))), i)
  }

  function Rounds(a: Cube, n: nat): (b: Cube)
  {
    if n == 0 then a else Round(Rounds(a, n - 1), n - 1)
  }

  // ----- The lanes do the same

  lemma ParityBit(s: seq<Long>, x: nat, z: nat)
    requires K.IsState(s) && x < 5 && z < 64
    ensures BitOf(K.Parity(s, x), z) == ColumnParity(CubeOf(s), x, z)
  {
    hide BitOf, Xor, Plus;
    XorBit(s[x], s[x + 5], z);
    XorBit(Xor(s[x], s[x + 5]), s[x + 10], z);
    XorBit(Xor(Xor(s[x], s[x + 5]), s[x + 10]), s[x + 15], z);
    XorBit(Xor(Xor(Xor(s[x], s[x + 5]), s[x + 10]), s[x + 15]), s[x + 20], z);
  }

  lemma EffectBit(s: seq<Long>, x: nat, z: nat)
    requires K.IsState(s) && x < 5 && z < 64
    ensures BitOf(K.Effect(s, x), z)
         == Plus(ColumnParity(CubeOf(s), (x + 4) % 5, z), ColumnParity(CubeOf(s), (x + 1) % 5, (z + 63) % 64))
  {
    hide BitOf, Xor, Rot, Plus, K.Parity, ColumnParity, CubeOf;
    var c, d := K.Parity(s, K.Next(x, 4)), K.Parity(s, K.Next(x, 1));
    XorBit(c, Rot(d, 1), z);
    RotBit(d, 1, z);
    ParityBit(s, K.Next(x, 4), z);
    ParityBit(s, K.Next(x, 1), (z + 63) % 64);
  }

  lemma ThetaAt(s: seq<Long>, x: nat, y: nat, z: nat)
    requires K.IsState(s) && x < 5 && y < 5 && z < 64
    ensures K.IsState(K.Theta(s)) && CubeOf(K.Theta(s))(x, y, z) == ThetaBit(CubeOf(s), x, y, z)
  {
    hide BitOf, Xor, Plus, K.Effect, ColumnParity;
    K.Index(x, y);
    XorBit(s[x + 5 * y], K.Effect(s, x), z);
    EffectBit(s, x, z);
  }

  /** Theta: every bit is added to the parities of two columns. */
  lemma ThetaOnBits(s: seq<Long>)
    requires K.IsState(s)
    ensures Same(CubeOf(K.Theta(s)), Theta(CubeOf(s)))
  {
    hide CubeOf, K.Theta, ThetaBit;
    forall x: nat, y: nat, z: nat | x < 5 && y < 5 && z < 64
      ensures CubeOf(K.Theta(s))(x, y, z) == ThetaBit(CubeOf(s), x, y, z)
    {
      ThetaAt(s, x, y, z);
    }
  }

  /** Rho: bit z comes from z less the offset, around the lane. */
  lemma RhoOnBits(s: seq<Long>)
    requires K.IsState(s)
    ensures Same(CubeOf(K.Rho(s)), Rho(CubeOf(s)))
  {
    hide BitOf, Rot, K.Offset;
    forall x: nat, y: nat, z: nat | x < 5 && y < 5 && z < 64
      ensures CubeOf(K.Rho(s))(x, y, z) == RhoBit(CubeOf(s), x, y, z)
    {
      RotBit(s[x + 5 * y], K.Offset(x + 5 * y), z);
    }
  }

  lemma PiAt(s: seq<Long>, x: nat, y: nat, z: nat)
    requires K.IsState(s) && x < 5 && y < 5 && z < 64
    ensures K.IsState(K.Pi(s)) && CubeOf(K.Pi(s))(x, y, z) == PiBit(CubeOf(s), x, y, z)
  {
    hide BitOf, K.Pi;
    K.PiAt(s, x, y);
  }

  /** Pi: lanes change places. */
  lemma PiOnBits(s: seq<Long>)
    requires K.IsState(s)
    ensures Same(CubeOf(K.Pi(s)), Pi(CubeOf(s)))
  {
    hide CubeOf, K.Pi, PiBit;
    forall x: nat, y: nat, z: nat | x < 5 && y < 5 && z < 64
      ensures CubeOf(K.Pi(s))(x, y, z) == PiBit(CubeOf(s), x, y, z)
    {
      PiAt(s, x, y, z);
    }
  }

  lemma AndNotAt(a: Long, b: Long, u: bv6)
    ensures At(a & !b, u) == (At(a, u) && !At(b, u))
  {
  }

  lemma AndNotBit(a: Long, b: Long, z: nat)
    requires z < 64
    ensures BitOf(K.AndNot(a, b), z) == (!BitOf(b, z) && BitOf(a, z))
  {
    hide At, Six;
    AndNotAt(a, b, Six(z));
  }

  lemma ChiAt(s: seq<Long>, x: nat, y: nat, z: nat)
    requires K.IsState(s) && x < 5 && y < 5 && z < 64
    ensures K.IsState(K.Chi(s)) && CubeOf(K.Chi(s))(x, y, z) == ChiBit(CubeOf(s), x, y, z)
  {
    hide BitOf, Xor, K.AndNot, Plus, K.Chi;
    K.ChiAt(s, x, y);
    var p, q := s[K.Next(x, 1) + 5 * y], s[K.Next(x, 2) + 5 * y];
    XorBit(s[x + 5 * y], K.AndNot(q, p), z);
    AndNotBit(q, p, z);
  }

  /** Chi: to a bit is added the complement of the next of its row, times the one after. */
  lemma ChiOnBits(s: seq<Long>)
    requires K.IsState(s)
    ensures Same(CubeOf(K.Chi(s)), Chi(CubeOf(s)))
  {
    hide CubeOf, K.Chi, ChiBit;
    forall x: nat, y: nat, z: nat | x < 5 && y < 5 && z < 64
      ensures CubeOf(K.Chi(s))(x, y, z) == ChiBit(CubeOf(s), x, y, z)
    {
      ChiAt(s, x, y, z);
    }
  }

  /** Iota: the constant is added to lane (0, 0). */
  lemma IotaOnBits(s: seq<Long>, i: nat)
    requires K.IsState(s) && i < 24
    ensures Same(CubeOf(K.Iota(s, K.Constant(i))), Iota(CubeOf(s), i))
  {
    hide BitOf, Xor, K.Constant, Plus, ConstantBit;
    forall x: nat, y: nat, z: nat | x < 5 && y < 5 && z < 64
      ensures CubeOf(K.Iota(s, K.Constant(i)))(x, y, z) == IotaBit(CubeOf(s), i, x, y, z)
    {
      if x == 0 && y == 0 {
        XorBit(s[0], K.Constant(i), z);
        ConstantOnBits(i, z);
      } else {
        assert x + 5 * y != 0;
        NoPlus(CubeOf(s)(x, y, z));
      }
    }
  }

  lemma NoPlus(p: bool)
    ensures Plus(p, false) == p
  {
  }

  // ----- The round constants

  /** The byte that holds the register in its bits. */
  lemma {:induction false} RegisterOnBits(t: nat, k: nat)
    requires k < 8
    ensures OctetBit(K.RegisterAt(t), k) == RegisterBits(t)[k]
  {
    hide OctetBit, K.Shifted;
    if t == 0 {
      FirstRegister(k);
    } else {
      RegisterOnBits(t - 1, 7);
      if k > 0 {
        RegisterOnBits(t - 1, k - 1);
      }
      ShiftedBit(K.RegisterAt(t - 1), k);
    }
  }

  lemma FirstRegister(k: nat)
    requires k < 8
    ensures OctetBit(1, k) <==> k == 0
  {
  }

  lemma ShiftedBit(r: Octet, k: nat)
    requires k < 8
    ensures OctetBit(K.Shifted(r), k)
         == Plus(k > 0 && OctetBit(r, k - 1), (k == 0 || k == 4 || k == 5 || k == 6) && OctetBit(r, 7))
  {
    match k { case 0 => case 1 => case 2 => case 3 => case 4 => case 5 => case 6 => case 7 => }
  }

  lemma SpreadAt(p0: Long, p1: Long, p2: Long, p3: Long, p4: Long, p5: Long, p6: Long, u: bv6)
    requires p0 <= 1 && p1 <= 1 && p2 <= 1 && p3 <= 1 && p4 <= 1 && p5 <= 1 && p6 <= 1
    ensures At(K.Placed(p0, p1, p2, p3, p4, p5, p6), u) <==>
            match u
            case 0 => p0 == 1
            case 1 => p1 == 1
            case 3 => p2 == 1
            case 7 => p3 == 1
            case 15 => p4 == 1
            case 31 => p5 == 1
            case 63 => p6 == 1
            case _ => false
  {
  }

  lemma FirstBit(r: Octet)
    ensures K.Bit(r) <= 1 && (K.Bit(r) == 1 <==> OctetBit(r, 0))
  {
  }

  lemma DigitsDiffer(d: bv6, e: bv6, d': bv6, e': bv6)
    requires d < 8 && e < 8 && d' < 8 && e' < 8 && 8 * d + e == 8 * d' + e'
    ensures d == d' && e == e'
  {
  }

  lemma DigitInjective(y: nat, z: nat)
    requires y < 8 && z < 8 && Digit(y) == Digit(z)
    ensures y == z
  {
  }

  lemma SixInjective(y: nat, z: nat)
    requires y < 64 && z < 64 && Six(y) == Six(z)
    ensures y == z
  {
    hide Digit;
    DigitBelow(y / 8);
    DigitBelow(y % 8);
    DigitBelow(z / 8);
    DigitBelow(z % 8);
    DigitsDiffer(Digit(y / 8), Digit(y % 8), Digit(z / 8), Digit(z % 8));
    DigitInjective(y / 8, z / 8);
    DigitInjective(y % 8, z % 8);
  }

  lemma Sixes()
    ensures Six(0) == 0 && Six(1) == 1 && Six(3) == 3 && Six(7) == 7 && Six(15) == 15 && Six(31) == 31 && Six(63) == 63
  {
  }

  lemma SpreadBit(r0: Octet, r1: Octet, r2: Octet, r3: Octet, r4: Octet, r5: Octet, r6: Octet, z: nat)
    requires z < 64
    ensures BitOf(K.Placed(K.Bit(r0), K.Bit(r1), K.Bit(r2), K.Bit(r3), K.Bit(r4), K.Bit(r5), K.Bit(r6)), z)
         == AtPlaces(OctetBit(r0, 0), OctetBit(r1, 0), OctetBit(r2, 0), OctetBit(r3, 0), OctetBit(r4, 0), OctetBit(r5, 0),
                     OctetBit(r6, 0), z)
  {
    hide At, K.Placed, Six, OctetBit, K.Bit;
    FirstBit(r0); FirstBit(r1); FirstBit(r2); FirstBit(r3); FirstBit(r4); FirstBit(r5); FirstBit(r6);
    SpreadAt(K.Bit(r0), K.Bit(r1), K.Bit(r2), K.Bit(r3), K.Bit(r4), K.Bit(r5), K.Bit(r6), Six(z));
    Sixes();
    PlaceIs(z);
  }

  lemma PlaceIs(z: nat)
    requires z < 64
    ensures (Six(z) == 0 <==> z == 0) && (Six(z) == 1 <==> z == 1) && (Six(z) == 3 <==> z == 3) && (Six(z) == 7 <==> z == 7)
    ensures (Six(z) == 15 <==> z == 15) && (Six(z) == 31 <==> z == 31) && (Six(z) == 63 <==> z == 63)
  {
    hide Six;
    Sixes();
    if Six(z) == 0 { SixInjective(z, 0); }
    if Six(z) == 1 { SixInjective(z, 1); }
    if Six(z) == 3 { SixInjective(z, 3); }
    if Six(z) == 7 { SixInjective(z, 7); }
    if Six(z) == 15 { SixInjective(z, 15); }
    if Six(z) == 31 { SixInjective(z, 31); }
    if Six(z) == 63 { SixInjective(z, 63); }
  }

  lemma RegisterSteps(t: nat)
    ensures K.RegisterAt(t + 1) == K.Shifted(K.RegisterAt(t)) && K.RegisterAt(t + 2) == K.Shifted(K.RegisterAt(t + 1))
    ensures K.RegisterAt(t + 3) == K.Shifted(K.RegisterAt(t + 2)) && K.RegisterAt(t + 4) == K.Shifted(K.RegisterAt(t + 3))
    ensures K.RegisterAt(t + 5) == K.Shifted(K.RegisterAt(t + 4)) && K.RegisterAt(t + 6) == K.Shifted(K.RegisterAt(t + 5))
  {
    hide K.Shifted;
  }

  /** The low bit of the register after t steps. */
  function Low(t: nat): (v: bool)
  {
    OctetBit(K.RegisterAt(t), 0)
  }

  lemma SpreadShifts(r: Octet, z: nat)
    requires z < 64
    ensures var r1 := K.Shifted(r); var r2 := K.Shifted(r1); var r3 := K.Shifted(r2);
            var r4 := K.Shifted(r3); var r5 := K.Shifted(r4); var r6 := K.Shifted(r5);
            AtPlaces(OctetBit(r, 0), OctetBit(r1, 0), OctetBit(r2, 0), OctetBit(r3, 0), OctetBit(r4, 0), OctetBit(r5, 0),
                     OctetBit(r6, 0), z) == BitOf(K.Spread(r), z)
  {
    hide BitOf, K.Placed, OctetBit, K.Bit, AtPlaces, K.Shifted;
    var r1 := K.Shifted(r);
    var r2 := K.Shifted(r1);
    var r3 := K.Shifted(r2);
    var r4 := K.Shifted(r3);
    var r5 := K.Shifted(r4);
    SpreadBit(r, r1, r2, r3, r4, r5, K.Shifted(r5), z);
  }

  lemma SpreadLows(t: nat, z: nat)
    requires z < 64
    ensures BitOf(K.Spread(K.RegisterAt(t)), z)
         == AtPlaces(Low(t), Low(t + 1), Low(t + 2), Low(t + 3), Low(t + 4), Low(t + 5), Low(t + 6), z)
  {
    hide BitOf, K.Spread, OctetBit, K.RegisterAt, AtPlaces, K.Shifted;
    RegisterSteps(t);
    SpreadShifts(K.RegisterAt(t), z);
  }

  lemma LowIs(t: nat)
    ensures Low(t) == RegisterBits(t)[0]
  {
    hide OctetBit, RegisterBits, K.RegisterAt;
    RegisterOnBits(t, 0);
  }

  /** The table of constants, bit by bit. */
  lemma ConstantOnBits(i: nat, z: nat)
    requires i < 24 && z < 64
    ensures BitOf(K.Constant(i), z) == ConstantBit(i, z)
  {
    hide BitOf, K.Spread, K.RegisterAt, K.Constant, AtPlaces, RegisterBits, Low;
    K.ConstantsFollowRegister(i);
    SpreadLows(7 * i, z);
    LowIs(7 * i);
    LowIs(7 * i + 1);
    LowIs(7 * i + 2);
    LowIs(7 * i + 3);
    LowIs(7 * i + 4);
    LowIs(7 * i + 5);
    LowIs(7 * i + 6);
  }

  // ----- All rounds

  lemma SameTrans(a: Cube, b: Cube, c: Cube)
    requires Same(a, b) && Same(b, c)
    ensures Same(a, c)
  {
    forall x: nat, y: nat, z: nat | x < 5 && y < 5 && z < 64
      ensures a(x, y, z) == c(x, y, z)
    {
      assert a(x, y, z) == b(x, y, z) == c(x, y, z);
    }
  }

  lemma SameParity(a: Cube, b: Cube, x: nat, z: nat)
    requires Same(a, b) && x < 5 && z < 64
    ensures ColumnParity(a, x, z) == ColumnParity(b, x, z)
  {
    assert forall y: nat :: y < 5 ==> a(x, y, z) == b(x, y, z);
  }

  lemma SameTheta(a: Cube, b: Cube)
    requires Same(a, b)
    ensures Same(Theta(a), Theta(b))
  {
    hide ColumnParity, Plus;
    forall x: nat, y: nat, z: nat | x < 5 && y < 5 && z < 64
      ensures ThetaBit(a, x, y, z) == ThetaBit(b, x, y, z)
    {
      assert a(x, y, z) == b(x, y, z);
      SameParity(a, b, (x + 4) % 5, z);
      SameParity(a, b, (x + 1) % 5, (z + 63) % 64);
    }
  }

  lemma SameRho(a: Cube, b: Cube)
    requires Same(a, b)
    ensures Same(Rho(a), Rho(b))
  {
    hide K.Offset;
    forall x: nat, y: nat, z: nat | x < 5 && y < 5 && z < 64
      ensures RhoBit(a, x, y, z) == RhoBit(b, x, y, z)
    {
      var w: nat := (z + 64 - K.Offset(x + 5 * y)) % 64;
      assert a(x, y, w) == b(x, y, w);
    }
  }

  lemma SamePi(a: Cube, b: Cube)
    requires Same(a, b)
    ensures Same(Pi(a), Pi(b))
  {
    forall x: nat, y: nat, z: nat | x < 5 && y < 5 && z < 64
      ensures PiBit(a, x, y, z) == PiBit(b, x, y, z)
    {
      var w: nat := (x + 3 * y) % 5;
      assert a(w, x, z) == b(w, x, z);
    }
  }

  lemma SameChi(a: Cube, b: Cube)
    requires Same(a, b)
    ensures Same(Chi(a), Chi(b))
  {
    forall x: nat, y: nat, z: nat | x < 5 && y < 5 && z < 64
      ensures ChiBit(a, x, y, z) == ChiBit(b, x, y, z)
    {
      var v: nat, w: nat := (x + 1) % 5, (x + 2) % 5;
      assert a(x, y, z) == b(x, y, z) && a(v, y, z) == b(v, y, z) && a(w, y, z) == b(w, y, z);
    }
  }

  lemma SameIota(a: Cube, b: Cube, i: nat)
    requires Same(a, b)
    ensures Same(Iota(a, i), Iota(b, i))
  {
    hide ConstantBit;
    forall x: nat, y: nat, z: nat | x < 5 && y < 5 && z < 64
      ensures IotaBit(a, i, x, y, z) == IotaBit(b, i, x, y, z)
    {
      assert a(x, y, z) == b(x, y, z);
    }
  }

  /** A round on lanes is the five steps on bits. */
  lemma RoundOnBits(s: seq<Long>, a: Cube, i: nat)
    requires K.IsState(s) && i < 24 && Same(CubeOf(s), a)
    ensures Same(CubeOf(K.Round(s, K.Constant(i))), Round(a, i))
  {
    hide Same, CubeOf, K.Theta, K.Rho, K.Pi, K.Chi, K.Iota, K.Constant, Theta, Rho, Pi, Chi, Iota;
    var s1 := K.Theta(s);
    ThetaOnBits(s);
    SameTheta(CubeOf(s), a);
    SameTrans(CubeOf(s1), Theta(CubeOf(s)), Theta(a));
    var s2 := K.Rho(s1);
    RhoOnBits(s1);
    SameRho(CubeOf(s1), Theta(a));
    SameTrans(CubeOf(s2), Rho(CubeOf(s1)), Rho(Theta(a)));
    var s3 := K.Pi(s2);
    PiOnBits(s2);
    SamePi(CubeOf(s2), Rho(Theta(a)));
    SameTrans(CubeOf(s3), Pi(CubeOf(s2)), Pi(Rho(Theta(a))));
    var s4 := K.Chi(s3);
    ChiOnBits(s3);
    SameChi(CubeOf(s3), Pi(Rho(Theta(a))));
    SameTrans(CubeOf(s4), Chi(CubeOf(s3)), Chi(Pi(Rho(Theta(a)))));
    IotaOnBits(s4, i);
    SameIota(CubeOf(s4), Chi(Pi(Rho(Theta(a)))), i);
    SameTrans(CubeOf(K.Iota(s4, K.Constant(i))), Iota(CubeOf(s4), i), Iota(Chi(Pi(Rho(Theta(a)))), i));
  }

  /** Keccak-p on lanes is Keccak-p on bits. */
  lemma {:induction false} RoundsOnBits(s: seq<Long>, a: Cube, n: nat)
    requires K.IsState(s) && n <= 24 && Same(CubeOf(s), a)
    ensures Same(CubeOf(K.Rounds(s, n)), Rounds(a, n))
  {
    hide Same, CubeOf, K.Round, Round;
    if n > 0 {
      RoundsOnBits(s, a, n - 1);
      RoundOnBits(K.Rounds(s, n - 1), Rounds(a, n - 1), n - 1);
    }
  }

  /** Algorithm 2: the lane that the walk meets after t steps is turned by half of
      (t + 1)(t + 2), and lane (0, 0) is left alone. */
  lemma RhoFollowsWalk(a: Cube, t: nat, z: nat)
    requires t < 24 && z < 64
    ensures var (x, y) := K.Walk(t);
            Rho(a)(x, y, z) == a(x, y, (z + 64 - (t + 1) * (t + 2) / 2 % 64) % 64)
    ensures Rho(a)(0, 0, z) == a(0, 0, z)
  {
    hide K.Offset, K.Walk;
    K.OffsetsFollowWalk(t);
  }
}
