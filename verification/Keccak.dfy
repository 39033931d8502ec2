/** The Keccak-f[1600] permutation: the step mappings of FIPS 202, and the in-place
    form that leaves the lanes where they are for four rounds. */
module Keccak {
  import opened Longs

  type Lane = Long

  function AndNot(a: Lane, b: Lane): (r: Lane) { a & !b }

  // ----- Sections 3.2 and 3.3 of FIPS 202, on lanes numbered x + 5y

  predicate IsState(s: seq<Lane>) { |s| == 25 }

  function Parity(s: seq<Lane>, x: nat): (p: Lane)
    requires IsState(s) && x < 5
  {
    Xor(Xor(Xor(Xor(s[x], s[x + 5]), s[x + 10]), s[x + 15]), s[x + 20])
  }

  function Effect(s: seq<Lane>, x: nat): (d: Lane)
    requires IsState(s) && x < 5
  {
    Xor(Parity(s, Next(x, 4)), Rot(Parity(s, Next(x, 1)), 1))
  }

  function Theta(s: seq<Lane>): (t: seq<Lane>)
    requires IsState(s)
    ensures IsState(t)
  {
    seq(25, i requires 0 <= i < 25 => Xor(s[i], Effect(s, i % 5)))
  }

  /** The rotation of each lane. */
  const OFFSETS: seq<nat> := [0, 1, 62, 28, 27, 36, 44, 6, 55, 20, 3, 10, 43, 25, 39, 41, 45, 15, 21, 8, 18, 2, 61, 56, 14]

  function Offset(i: nat): (n: nat)
    requires i < 25
    ensures n < 64
  {
    OFFSETS[i]
  }

  function Rho(s: seq<Lane>): (t: seq<Lane>)
    requires IsState(s)
    ensures IsState(t)
  {
    seq(25, i requires 0 <= i < 25 => Rot(s[i], Offset(i)))
  }

  function Pi(s: seq<Lane>): (t: seq<Lane>)
    requires IsState(s)
    ensures IsState(t)
  {
    seq(25, i requires 0 <= i < 25 => s[Next(i % 5, 3 * (i / 5)) + 5 * (i % 5)])
  }

  function Chi(s: seq<Lane>): (t: seq<Lane>)
    requires IsState(s)
    ensures IsState(t)
  {
    seq(25, i requires 0 <= i < 25 => ChiLane(s, i % 5, i / 5))
  }

  function ChiLane(s: seq<Lane>, x: nat, y: nat): (v: Lane)
    requires IsState(s) && x < 5 && y < 5
  {
    Xor(s[x + 5 * y], AndNot(s[Next(x, 2) + 5 * y], s[Next(x, 1) + 5 * y]))
  }

  /** n columns further, around the row. */
  function Next(x: nat, n: nat): (z: nat)
    ensures z < 5
  {
    (x + n) % 5
  }

  function Iota(s: seq<Lane>, c: Lane): (t: seq<Lane>)
    requires IsState(s)
    ensures IsState(t)
  {
    s[0 := Xor(s[0], c)]
  }

  function Round(s: seq<Lane>, c: Lane): (t: seq<Lane>)
    requires IsState(s)
    ensures IsState(t)
  {
    Iota(Chi(Pi(Rho(Theta(s)))), c)
  }

  const RC: seq<Lane> := [
    0x0000000000000001, 0x0000000000008082, 0x800000000000808A, 0x8000000080008000,
    0x000000000000808B, 0x0000000080000001, 0x8000000080008081, 0x8000000000008009,
    0x000000000000008A, 0x0000000000000088, 0x0000000080008009, 0x000000008000000A,
    0x000000008000808B, 0x800000000000008B, 0x8000000000008089, 0x8000000000008003,
    0x8000000000008002, 0x8000000000000080, 0x000000000000800A, 0x800000008000000A,
    0x8000000080008081, 0x8000000000008080, 0x0000000080000001, 0x8000000080008008]

  function Constant(i: nat): (c: Lane)
    requires i < 24
  {
    RC[i]
  }

  function Rounds(s: seq<Lane>, n: nat): (t: seq<Lane>)
    requires IsState(s) && n <= 24
    ensures IsState(t)
  {
    if n == 0 then s else Round(Rounds(s, n - 1), Constant(n - 1))
  }

  /** The walk over the lanes that defines the offsets. */
  function Walk(t: nat): (p: (nat, nat))
    ensures p.0 < 5 && p.1 < 5
  {
    if t == 0 then (1, 0) else var p := Walk(t - 1); (p.1, (2 * p.0 + 3 * p.1) % 5)
  }

  const WALK: seq<(nat, nat)> := [
    (1, 0), (0, 2), (2, 1), (1, 2), (2, 3), (3, 3), (3, 0), (0, 1), (1, 3), (3, 1), (1, 4), (4, 4),
    (4, 0), (0, 3), (3, 4), (4, 3), (3, 2), (2, 2), (2, 0), (0, 4), (4, 2), (2, 4), (4, 1), (1, 1)]

  lemma {:induction false} WalkIsTable(t: nat)
    requires t < 24
    ensures Walk(t) == WALK[t]
  {
    if t > 0 {
      WalkIsTable(t - 1);
      TableStep(t);
    } else {
      assert Walk(0) == (1, 0);
    }
  }

  lemma TableStep(t: nat)
    requires 0 < t < 24
    ensures WALK[t] == (WALK[t - 1].1, (2 * WALK[t - 1].0 + 3 * WALK[t - 1].1) % 5)
  {
    match t {
      case 1 => assert WALK[1] == (0, 2);
      case 2 => assert WALK[2] == (2, 1);
      case 3 => assert WALK[3] == (1, 2);
      case 4 => assert WALK[4] == (2, 3);
      case 5 => assert WALK[5] == (3, 3);
      case 6 => assert WALK[6] == (3, 0);
      case 7 => assert WALK[7] == (0, 1);
      case 8 => assert WALK[8] == (1, 3);
      case 9 => assert WALK[9] == (3, 1);
      case 10 => assert WALK[10] == (1, 4);
      case 11 => assert WALK[11] == (4, 4);
      case 12 => assert WALK[12] == (4, 0);
      case 13 => assert WALK[13] == (0, 3);
      case 14 => assert WALK[14] == (3, 4);
      case 15 => assert WALK[15] == (4, 3);
      case 16 => assert WALK[16] == (3, 2);
      case 17 => assert WALK[17] == (2, 2);
      case 18 => assert WALK[18] == (2, 0);
      case 19 => assert WALK[19] == (0, 4);
      case 20 => assert WALK[20] == (4, 2);
      case 21 => assert WALK[21] == (2, 4);
      case 22 => assert WALK[22] == (4, 1);
      case 23 => assert WALK[23] == (1, 1);
    }
  }

  /** Half of (t + 1)(t + 2), built up by additions. */
  function Triangle(t: nat): (n: nat)
    ensures 2 * n == (t + 1) * (t + 2)
  {
    if t == 0 then 1 else Triangle(t - 1) + t + 1
  }

  /** Algorithm 2 of FIPS 202 gives the table of offsets. */
  lemma OffsetsFollowWalk(t: nat)
    requires t < 24
    ensures Offset(Walk(t).0 + 5 * Walk(t).1) == (t + 1) * (t + 2) / 2 % 64 && Offset(0) == 0
  {
    WalkIsTable(t);
    hide Walk;
    var n := Triangle(t);
    assert (t + 1) * (t + 2) / 2 == n;
    OffsetIsTriangle(t);
  }

  // ----- Section 3.2.5 of FIPS 202: the constants come from a shift register

  /** One step; bit k of the byte is R[k]. */
  function Shifted(r: bv8): (s: bv8)
  {
    if r & 0x80 != 0 then (r << 1) ^ 0x71 else r << 1
  }

  function RegisterAt(t: nat): (r: bv8)
  {
    if t == 0 then 1 else Shifted(RegisterAt(t - 1))
  }

  /** The bits that seven states in a row put at the places 2^j - 1. */
  function Spread(r: bv8): (c: Lane)
  {
    var r1 := Shifted(r);
    var r2 := Shifted(r1);
    var r3 := Shifted(r2);
    var r4 := Shifted(r3);
    var r5 := Shifted(r4);
    var r6 := Shifted(r5);
    Placed(Bit(r), Bit(r1), Bit(r2), Bit(r3), Bit(r4), Bit(r5), Bit(r6))
  }

  function Placed(p0: Lane, p1: Lane, p2: Lane, p3: Lane, p4: Lane, p5: Lane, p6: Lane): (c: Lane)
  {
    p0 | (p1 << 1) | (p2 << 3) | (p3 << 7) | (p4 << 15) | (p5 << 31) | (p6 << 63)
  }

  function Bit(r: bv8): (b: Lane) { (r & 1) as bv64 }

  /** The register at the start of each round. */
  const REGISTER: seq<bv8> := [
    0x01, 0x80, 0xd8, 0x1a, 0xdf, 0x09, 0x35, 0x4f, 0xca, 0x70, 0x41, 0xec,
    0xd5, 0xcd, 0x63, 0xab, 0xaa, 0x2a, 0xf2, 0xe8, 0x37, 0x3e, 0x0b, 0x44,
    0x8e]

  function Register(i: nat): (r: bv8)
    requires i <= 24
  {
    REGISTER[i]
  }

  lemma SevenSteps(t: nat)
    ensures RegisterAt(t + 7) ==
            Shifted(Shifted(Shifted(Shifted(Shifted(Shifted(Shifted(RegisterAt(t))))))))
  {
    hide Shifted;
    assert RegisterAt(t + 7) == Shifted(RegisterAt(t + 6));
    assert RegisterAt(t + 6) == Shifted(RegisterAt(t + 5));
    assert RegisterAt(t + 5) == Shifted(RegisterAt(t + 4));
    assert RegisterAt(t + 4) == Shifted(RegisterAt(t + 3));
    assert RegisterAt(t + 3) == Shifted(RegisterAt(t + 2));
    assert RegisterAt(t + 2) == Shifted(RegisterAt(t + 1));
    assert RegisterAt(t + 1) == Shifted(RegisterAt(t));
  }

  lemma RegisterStep(i: nat)
    requires i < 24
    ensures Register(i + 1) == Shifted(Shifted(Shifted(Shifted(Shifted(Shifted(Shifted(Register(i))))))))
  {
    match i
    case 0 => assert REGISTER[1] == 0x80;
    case 1 => assert REGISTER[2] == 0xd8;
    case 2 => assert REGISTER[3] == 0x1a;
    case 3 => assert REGISTER[4] == 0xdf;
    case 4 => assert REGISTER[5] == 0x09;
    case 5 => assert REGISTER[6] == 0x35;
    case 6 => assert REGISTER[7] == 0x4f;
    case 7 => assert REGISTER[8] == 0xca;
    case 8 => assert REGISTER[9] == 0x70;
    case 9 => assert REGISTER[10] == 0x41;
    case 10 => assert REGISTER[11] == 0xec;
    case 11 => assert REGISTER[12] == 0xd5;
    case 12 => assert REGISTER[13] == 0xcd;
    case 13 => assert REGISTER[14] == 0x63;
    case 14 => assert REGISTER[15] == 0xab;
    case 15 => assert REGISTER[16] == 0xaa;
    case 16 => assert REGISTER[17] == 0x2a;
    case 17 => assert REGISTER[18] == 0xf2;
    case 18 => assert REGISTER[19] == 0xe8;
    case 19 => assert REGISTER[20] == 0x37;
    case 20 => assert REGISTER[21] == 0x3e;
    case 21 => assert REGISTER[22] == 0x0b;
    case 22 => assert REGISTER[23] == 0x44;
    case 23 => assert REGISTER[24] == 0x8e;
  }

  lemma {:induction false} RegisterIsTable(i: nat)
    requires i <= 24
    ensures RegisterAt(7 * i) == Register(i)
  {
    hide Shifted, Register;
    if i > 0 {
      RegisterIsTable(i - 1);
      SevenSteps(7 * (i - 1));
      RegisterStep(i - 1);
    } else {
      assert Register(0) == 1 by { FirstRegister(); }
    }
  }

  lemma FirstRegister()
    ensures Register(0) == 1
  {
  }

  lemma Constants0(i: nat)
    requires i < 4
    ensures Constant(i) == Spread(Register(i))
  {
    match i
    case 0 => assert REGISTER[0] == 0x01;
    case 1 => assert REGISTER[1] == 0x80;
    case 2 => assert REGISTER[2] == 0xd8;
    case 3 => assert REGISTER[3] == 0x1a;
  }

  lemma Constants4(i: nat)
    requires 4 <= i < 8
    ensures Constant(i) == Spread(Register(i))
  {
    match i
    case 4 => assert REGISTER[4] == 0xdf;
    case 5 => assert REGISTER[5] == 0x09;
    case 6 => assert REGISTER[6] == 0x35;
    case 7 => assert REGISTER[7] == 0x4f;
  }

  lemma Constants8(i: nat)
    requires 8 <= i < 12
    ensures Constant(i) == Spread(Register(i))
  {
    match i
    case 8 => assert REGISTER[8] == 0xca;
    case 9 => assert REGISTER[9] == 0x70;
    case 10 => assert REGISTER[10] == 0x41;
    case 11 => assert REGISTER[11] == 0xec;
  }

  lemma Constants12(i: nat)
    requires 12 <= i < 16
    ensures Constant(i) == Spread(Register(i))
  {
    match i
    case 12 => assert REGISTER[12] == 0xd5;
    case 13 => assert REGISTER[13] == 0xcd;
    case 14 => assert REGISTER[14] == 0x63;
    case 15 => assert REGISTER[15] == 0xab;
  }

  lemma Constants16(i: nat)
    requires 16 <= i < 20
    ensures Constant(i) == Spread(Register(i))
  {
    match i
    case 16 => assert REGISTER[16] == 0xaa;
    case 17 => assert REGISTER[17] == 0x2a;
    case 18 => assert REGISTER[18] == 0xf2;
    case 19 => assert REGISTER[19] == 0xe8;
  }

  lemma Constants20(i: nat)
    requires 20 <= i < 24
    ensures Constant(i) == Spread(Register(i))
  {
    match i
    case 20 => assert REGISTER[20] == 0x37;
    case 21 => assert REGISTER[21] == 0x3e;
    case 22 => assert REGISTER[22] == 0x0b;
    case 23 => assert REGISTER[23] == 0x44;
  }

  /** Algorithm 5 of FIPS 202 gives the table of round constants. */
  lemma ConstantsFollowRegister(i: nat)
    requires i < 24
    ensures Constant(i) == Spread(RegisterAt(7 * i))
  {
    hide Spread, Constant, Register, RegisterAt;
    RegisterIsTable(i);
    if i < 4 {
      Constants0(i);
    } else if i < 8 {
      Constants4(i);
    } else if i < 12 {
      Constants8(i);
    } else if i < 16 {
      Constants12(i);
    } else if i < 20 {
      Constants16(i);
    } else {
      Constants20(i);
    }
  }

  const TRIANGLES: seq<nat> := [
    1, 3, 6, 10, 15, 21, 28, 36, 45, 55, 66, 78, 91, 105, 120, 136, 153, 171, 190, 210, 231, 253, 276, 300]

  lemma {:induction false} TriangleIsTable(t: nat)
    requires t < 24
    ensures Triangle(t) == TRIANGLES[t]
  {
    if t > 0 {
      TriangleIsTable(t - 1);
    }
  }

  lemma OffsetIsTriangle(t: nat)
    requires t < 24
    ensures WALK[t].0 < 5 && WALK[t].1 < 5 && Offset(WALK[t].0 + 5 * WALK[t].1) == Triangle(t) % 64
  {
    TriangleIsTable(t);
    hide Triangle;
    if t < 12 {
      EarlyOffsets(t);
    } else {
      LateOffsets(t);
    }
  }

  lemma EarlyOffsets(t: nat)
    requires 0 <= t < 12
    ensures WALK[t].0 < 5 && WALK[t].1 < 5 && Offset(WALK[t].0 + 5 * WALK[t].1) == TRIANGLES[t] % 64
  {
    match t {
      case 0 => assert WALK[0] == (1, 0);
      case 1 => assert WALK[1] == (0, 2);
      case 2 => assert WALK[2] == (2, 1);
      case 3 => assert WALK[3] == (1, 2);
      case 4 => assert WALK[4] == (2, 3);
      case 5 => assert WALK[5] == (3, 3);
      case 6 => assert WALK[6] == (3, 0);
      case 7 => assert WALK[7] == (0, 1);
      case 8 => assert WALK[8] == (1, 3);
      case 9 => assert WALK[9] == (3, 1);
      case 10 => assert WALK[10] == (1, 4);
      case 11 => assert WALK[11] == (4, 4);
    }
  }

  lemma LateOffsets(t: nat)
    requires 12 <= t < 24
    ensures WALK[t].0 < 5 && WALK[t].1 < 5 && Offset(WALK[t].0 + 5 * WALK[t].1) == TRIANGLES[t] % 64
  {
    match t {
      case 12 => assert WALK[12] == (4, 0);
      case 13 => assert WALK[13] == (0, 3);
      case 14 => assert WALK[14] == (3, 4);
      case 15 => assert WALK[15] == (4, 3);
      case 16 => assert WALK[16] == (3, 2);
      case 17 => assert WALK[17] == (2, 2);
      case 18 => assert WALK[18] == (2, 0);
      case 19 => assert WALK[19] == (0, 4);
      case 20 => assert WALK[20] == (4, 2);
      case 21 => assert WALK[21] == (2, 4);
      case 22 => assert WALK[22] == (4, 1);
      case 23 => assert WALK[23] == (1, 1);
    }
  }

  // ----- The lanes in place

  /** The row in which lane (x, y) is kept after k of the four rounds of a pass. */
  function PlaceRow(k: nat, x: nat, y: nat): (r: nat)
    requires k <= 4 && x < 5 && y < 5
    ensures r < 5
  {
    match k
    case 0 => y
    case 1 => (2 * y + x) % 5
    case 2 => (4 * y + 3 * x) % 5
    case 3 => (3 * y + 2 * x) % 5
    case 4 => y
  }

  /** Its cell; no lane leaves its column. */
  function Place(k: nat, x: nat, y: nat): (p: nat)
    requires k <= 4 && x < 5 && y < 5
    ensures p < 25 && p % 5 == x && p / 5 == PlaceRow(k, x, y)
  {
    Index(x, PlaceRow(k, x, y));
    x + 5 * PlaceRow(k, x, y)
  }

  /** The state as it stands after k rounds of a pass. */
  function View(a: seq<Lane>, k: nat): (s: seq<Lane>)
    requires IsState(a) && k <= 4
    ensures IsState(s)
  {
    seq(25, i requires 0 <= i < 25 => a[Place(k, i % 5, i / 5)])
  }

  /** One value for each column. */
  datatype Five<T> = Five(c0: T, c1: T, c2: T, c3: T, c4: T)

  function At<T>(f: Five<T>, x: nat): (v: T)
    requires x < 5
  {
    match x
    case 0 => f.c0
    case 1 => f.c1
    case 2 => f.c2
    case 3 => f.c3
    case 4 => f.c4
  }

  /** The cells that round k reads and writes for row y, one from each column. */
  function Cells(k: nat, y: nat): (q: Five<nat>)
    requires k < 4 && y < 5
  {
    match (k, y)
    case (0, 0) => Five(0, 6, 12, 18, 24)
    case (0, 1) => Five(10, 16, 22, 3, 9)
    case (0, 2) => Five(20, 1, 7, 13, 19)
    case (0, 3) => Five(5, 11, 17, 23, 4)
    case (0, 4) => Five(15, 21, 2, 8, 14)
    case (1, 0) => Five(0, 16, 7, 23, 14)
    case (1, 1) => Five(20, 11, 2, 18, 9)
    case (1, 2) => Five(15, 6, 22, 13, 4)
    case (1, 3) => Five(10, 1, 17, 8, 24)
    case (1, 4) => Five(5, 21, 12, 3, 19)
    case (2, 0) => Five(0, 11, 22, 8, 19)
    case (2, 1) => Five(15, 1, 12, 23, 9)
    case (2, 2) => Five(5, 16, 2, 13, 24)
    case (2, 3) => Five(20, 6, 17, 3, 14)
    case (2, 4) => Five(10, 21, 7, 18, 4)
    case (3, 0) => Five(0, 1, 2, 3, 4)
    case (3, 1) => Five(5, 6, 7, 8, 9)
    case (3, 2) => Five(10, 11, 12, 13, 14)
    case (3, 3) => Five(15, 16, 17, 18, 19)
    case (3, 4) => Five(20, 21, 22, 23, 24)
  }

  /** The rotations of those cells. */
  function Turns(y: nat): (r: Five<nat>)
    requires y < 5
    ensures forall x: nat :: x < 5 ==> At(r, x) < 64
  {
    match y
    case 0 => Five(0, 44, 43, 21, 14)
    case 1 => Five(3, 45, 61, 28, 20)
    case 2 => Five(18, 1, 6, 25, 8)
    case 3 => Five(36, 10, 15, 56, 27)
    case 4 => Five(41, 2, 62, 55, 39)
  }

  /** The row that lane (x, y) of the next state comes from. */
  function Source(x: nat, y: nat): (z: nat)
    requires x < 5 && y < 5
    ensures z < 5
  {
    (x + 2 * y) % 5
  }

  lemma CellIsPlace(k: nat, x: nat, y: nat)
    requires k < 4 && x < 5 && y < 5
    ensures At(Cells(k, y), x) == Place(k + 1, x, y) == Place(k, x, Source(x, y))
  {
    hide Place, Cells, Source, At;
    PlaceMoves(k, x, y);
    match k
    case 0 => FirstCells(x, y);
    case 1 => SecondCells(x, y);
    case 2 => ThirdCells(x, y);
    case 3 => FourthCells(x, y);
  }

  lemma PlaceMoves(k: nat, x: nat, y: nat)
    requires k < 4 && x < 5 && y < 5
    ensures Place(k + 1, x, y) == Place(k, x, Source(x, y))
  {
    var z, c := Source(x, y), (x + 2 * y) / 5;
    SourceIs(x, y, c);
    hide Source, PlaceRow;
    match k
    case 0 => FirstMoves(x, y, z, c);
    case 1 => SecondMoves(x, y, z, c);
    case 2 => ThirdMoves(x, y, z, c);
    case 3 => FourthMoves(x, y, z, c);
  }

  lemma FirstMoves(x: nat, y: nat, z: nat, c: int)
    requires x < 5 && y < 5 && z < 5 && z == x + 2 * y - 5 * c
    ensures PlaceRow(1, x, y) == PlaceRow(0, x, z)
  {
    Modulo5(z, 2 * y + x, -c);
    Small5(z);
  }

  lemma SourceIs(x: nat, y: nat, c: nat)
    requires x < 5 && y < 5 && c == (x + 2 * y) / 5
    ensures Source(x, y) == x + 2 * y - 5 * c == (2 * y + x) % 5
  {
  }

  lemma SecondMoves(x: nat, y: nat, z: nat, c: int)
    requires x < 5 && y < 5 && z < 5 && z == x + 2 * y - 5 * c
    ensures PlaceRow(2, x, y) == PlaceRow(1, x, z)
  {
    Modulo5(2 * z + x, 4 * y + 3 * x, -2 * c);
  }

  lemma ThirdMoves(x: nat, y: nat, z: nat, c: int)
    requires x < 5 && y < 5 && z < 5 && z == x + 2 * y - 5 * c
    ensures PlaceRow(3, x, y) == PlaceRow(2, x, z)
  {
    Modulo5(4 * z + 3 * x, 3 * y + 2 * x, x + y - 4 * c);
  }

  lemma FourthMoves(x: nat, y: nat, z: nat, c: int)
    requires x < 5 && y < 5 && z < 5 && z == x + 2 * y - 5 * c
    ensures PlaceRow(4, x, y) == PlaceRow(3, x, z)
  {
    Modulo5(3 * z + 2 * x, y, x + y - 3 * c);
    assert y % 5 == y;
  }

  lemma Modulo5(a: int, b: int, t: int)
    requires a == b + 5 * t
    ensures a % 5 == b % 5
  {
  }

  lemma FirstCells(x: nat, y: nat)
    requires x < 5 && y < 5
    ensures At(Cells(0, y), x) == Place(1, x, y)
  {
    match y
    case 0 => match x { case 0 => case 1 => case 2 => case 3 => case 4 => }
    case 1 => match x { case 0 => case 1 => case 2 => case 3 => case 4 => }
    case 2 => match x { case 0 => case 1 => case 2 => case 3 => case 4 => }
    case 3 => match x { case 0 => case 1 => case 2 => case 3 => case 4 => }
    case 4 => match x { case 0 => case 1 => case 2 => case 3 => case 4 => }
  }

  lemma SecondCells(x: nat, y: nat)
    requires x < 5 && y < 5
    ensures At(Cells(1, y), x) == Place(2, x, y)
  {
    match y
    case 0 => match x { case 0 => case 1 => case 2 => case 3 => case 4 => }
    case 1 => match x { case 0 => case 1 => case 2 => case 3 => case 4 => }
    case 2 => match x { case 0 => case 1 => case 2 => case 3 => case 4 => }
    case 3 => match x { case 0 => case 1 => case 2 => case 3 => case 4 => }
    case 4 => match x { case 0 => case 1 => case 2 => case 3 => case 4 => }
  }

  lemma ThirdCells(x: nat, y: nat)
    requires x < 5 && y < 5
    ensures At(Cells(2, y), x) == Place(3, x, y)
  {
    match y
    case 0 => match x { case 0 => case 1 => case 2 => case 3 => case 4 => }
    case 1 => match x { case 0 => case 1 => case 2 => case 3 => case 4 => }
    case 2 => match x { case 0 => case 1 => case 2 => case 3 => case 4 => }
    case 3 => match x { case 0 => case 1 => case 2 => case 3 => case 4 => }
    case 4 => match x { case 0 => case 1 => case 2 => case 3 => case 4 => }
  }

  lemma FourthCells(x: nat, y: nat)
    requires x < 5 && y < 5
    ensures At(Cells(3, y), x) == Place(4, x, y)
  {
    match y
    case 0 => match x { case 0 => case 1 => case 2 => case 3 => case 4 => }
    case 1 => match x { case 0 => case 1 => case 2 => case 3 => case 4 => }
    case 2 => match x { case 0 => case 1 => case 2 => case 3 => case 4 => }
    case 3 => match x { case 0 => case 1 => case 2 => case 3 => case 4 => }
    case 4 => match x { case 0 => case 1 => case 2 => case 3 => case 4 => }
  }

  lemma TurnIsOffset(x: nat, y: nat)
    requires x < 5 && y < 5
    ensures At(Turns(y), x) == Offset(x + 5 * Source(x, y))
  {
    if y < 2 {
      UpperTurns(x, y);
    } else if y < 4 {
      MiddleTurns(x, y);
    } else {
      LowerTurns(x, y);
    }
  }

  lemma UpperTurns(x: nat, y: nat)
    requires x < 5 && y < 2
    ensures At(Turns(y), x) == Offset(x + 5 * Source(x, y))
  {
    match y
    case 0 => match x { case 0 => case 1 => case 2 => case 3 => case 4 => }
    case 1 => match x { case 0 => case 1 => case 2 => case 3 => case 4 => }
  }

  lemma MiddleTurns(x: nat, y: nat)
    requires x < 5 && 2 <= y < 4
    ensures At(Turns(y), x) == Offset(x + 5 * Source(x, y))
  {
    match y
    case 2 => match x { case 0 => case 1 => case 2 => case 3 => case 4 => }
    case 3 => match x { case 0 => case 1 => case 2 => case 3 => case 4 => }
  }

  lemma LowerTurns(x: nat, y: nat)
    requires x < 5 && y == 4
    ensures At(Turns(y), x) == Offset(x + 5 * Source(x, y))
  {
    match x { case 0 => case 1 => case 2 => case 3 => case 4 => }
  }

  /** Lanes of one column are kept in different rows. */
  lemma RowsDistinct(k: nat, x: nat, y: nat, w: nat)
    requires k <= 4 && x < 5 && y < 5 && w < 5 && PlaceRow(k, x, y) == PlaceRow(k, x, w)
    ensures y == w
  {
    match k
    case 0 =>
    case 1 => SameRemainder(2 * y + x, 2 * w + x, 2, y - w);
    case 2 => SameRemainder(4 * y + 3 * x, 4 * w + 3 * x, 4, y - w);
    case 3 => SameRemainder(3 * y + 2 * x, 3 * w + 2 * x, 3, y - w);
    case 4 =>
  }

  lemma SameRemainder(a: nat, b: nat, m: nat, d: int)
    requires a % 5 == b % 5 && 2 <= m <= 4 && -5 < d < 5
    requires m == 2 ==> a - b == 2 * d
    requires m == 3 ==> a - b == 3 * d
    requires m == 4 ==> a - b == 4 * d
    ensures d == 0
  {
    var t := a / 5 - b / 5;
    assert a - b == 5 * t;
  }

  lemma CellsDistinct(k: nat, x: nat, y: nat, v: nat, w: nat)
    requires k < 4 && x < 5 && y < 5 && v < 5 && w < 5 && At(Cells(k, y), x) == At(Cells(k, w), v)
    ensures x == v && y == w
  {
    CellIsPlace(k, x, y);
    CellIsPlace(k, v, w);
    hide Cells, At, Source, Place, PlaceRow;
    RowsDistinct(k + 1, x, y, w);
  }

  // ----- One row

  /** The lanes of row y before chi, in terms of the state as it stands. */
  function Turned(s: seq<Lane>, y: nat, z: nat): (b: Lane)
    requires IsState(s) && y < 5 && z < 5
  {
    var x := Next(z, 3 * y);
    Rot(Xor(s[x + 5 * z], Effect(s, x)), Offset(x + 5 * z))
  }

  lemma Index(x: nat, y: nat)
    requires x < 5 && y < 5
    ensures x + 5 * y < 25 && (x + 5 * y) % 5 == x && (x + 5 * y) / 5 == y
  {
  }

  lemma ThetaRhoAt(s: seq<Lane>, x: nat, y: nat)
    requires IsState(s) && x < 5 && y < 5
    ensures Rho(Theta(s))[x + 5 * y] == Rot(Xor(s[x + 5 * y], Effect(s, x)), Offset(x + 5 * y))
  {
    hide Xor, Rot, Effect, Offset;
    Index(x, y);
  }

  lemma PiAt(s: seq<Lane>, x: nat, y: nat)
    requires IsState(s) && x < 5 && y < 5
    ensures Pi(s)[x + 5 * y] == s[Next(x, 3 * y) + 5 * x]
  {
    Index(x, y);
  }

  lemma ChiAt(s: seq<Lane>, x: nat, y: nat)
    requires IsState(s) && x < 5 && y < 5
    ensures Chi(s)[x + 5 * y] == ChiLane(s, x, y)
  {
    hide ChiLane;
    Index(x, y);
  }

  /** Lane z of row y moved there from column z + 3y. */
  lemma TurnedIsPi(s: seq<Lane>, y: nat, z: nat)
    requires IsState(s) && y < 5 && z < 5
    ensures Pi(Rho(Theta(s)))[z + 5 * y] == Turned(s, y, z)
  {
    hide Xor, Rot, Effect, Offset, Pi, Rho, Theta;
    PiAt(Rho(Theta(s)), z, y);
    ThetaRhoAt(s, Next(z, 3 * y), z);
  }

  /** What chi and iota make of a row. */
  lemma RoundIs(s: seq<Lane>, c: Lane, x: nat, y: nat)
    requires IsState(s) && x < 5 && y < 5
    ensures var v := Xor(Turned(s, y, x), AndNot(Turned(s, y, Next(x, 2)), Turned(s, y, Next(x, 1))));
            Round(s, c)[x + 5 * y] == if x == 0 && y == 0 then Xor(v, c) else v
  {
    hide Xor, Rot, Effect, AndNot, Turned, Theta, Rho, Pi, Chi, Next;
    var t := Pi(Rho(Theta(s)));
    TurnedIsPi(s, y, x);
    TurnedIsPi(s, y, Next(x, 1));
    TurnedIsPi(s, y, Next(x, 2));
    ChiAt(t, x, y);
    assert x + 5 * y == 0 <==> x == 0 && y == 0;
  }

  // ----- Column parities do not depend on the place within the column

  function Sum(v: Five<Lane>): (p: Lane)
  {
    Xor(Xor(Xor(Xor(v.c0, v.c1), v.c2), v.c3), v.c4)
  }

  function Column(s: seq<Lane>, x: nat): (v: Five<Lane>)
    requires IsState(s) && x < 5
  {
    Five(s[x], s[x + 5], s[x + 10], s[x + 15], s[x + 20])
  }

  lemma XorLaws(a: Lane, b: Lane, c: Lane)
    ensures Xor(a, b) == Xor(b, a) && Xor(Xor(a, b), c) == Xor(a, Xor(b, c))
  {
  }

  lemma XorSwap(p: Lane, a: Lane, b: Lane)
    ensures Xor(Xor(p, a), b) == Xor(Xor(p, b), a)
  {
    hide Xor;
    XorLaws(p, a, b);
    XorLaws(a, b, p);
    XorLaws(p, b, a);
  }

  /** Starting one lane later, or taking every second lane, gives the same sum. */
  lemma SumCycles(a: Lane, b: Lane, c: Lane, d: Lane, e: Lane)
    ensures Sum(Five(b, c, d, e, a)) == Sum(Five(a, b, c, d, e))
    ensures Sum(Five(a, c, e, b, d)) == Sum(Five(a, b, c, d, e))
  {
    hide Xor;
    XorSwap(Xor(Xor(b, c), d), e, a);
    XorSwap(Xor(b, c), d, a);
    XorSwap(b, c, a);
    XorLaws(a, b, c);
    XorSwap(Xor(a, c), e, b);
    XorSwap(a, c, b);
    XorSwap(Xor(Xor(a, b), c), e, d);
  }

  /** The column from lane p on. */
  function From(v: Five<Lane>, p: nat): (w: Five<Lane>)
    requires p < 5
  {
    match p
    case 0 => v
    case 1 => Five(v.c1, v.c2, v.c3, v.c4, v.c0)
    case 2 => Five(v.c2, v.c3, v.c4, v.c0, v.c1)
    case 3 => Five(v.c3, v.c4, v.c0, v.c1, v.c2)
    case 4 => Five(v.c4, v.c0, v.c1, v.c2, v.c3)
  }

  function Second(v: Five<Lane>): (w: Five<Lane>)
  {
    Five(v.c0, v.c2, v.c4, v.c1, v.c3)
  }

  lemma FromSum(v: Five<Lane>, p: nat)
    requires p < 5
    ensures Sum(From(v, p)) == Sum(v)
  {
    hide Sum;
    SumCycles(v.c0, v.c1, v.c2, v.c3, v.c4);
    SumCycles(v.c1, v.c2, v.c3, v.c4, v.c0);
    SumCycles(v.c2, v.c3, v.c4, v.c0, v.c1);
    SumCycles(v.c3, v.c4, v.c0, v.c1, v.c2);
  }

  lemma SecondSum(v: Five<Lane>)
    ensures Sum(Second(v)) == Sum(v)
  {
    hide Sum;
    SumCycles(v.c0, v.c1, v.c2, v.c3, v.c4);
  }

  /** A column of the state as it stands is a column of cells, in some order. */
  function Ordered(v: Five<Lane>, k: nat, x: nat): (w: Five<Lane>)
    requires 1 <= k <= 3 && x < 5
  {
    if k == 1 then From(Second(v), 3 * x % 5)
    else if k == 2 then From(Second(Second(v)), 2 * x % 5)
    else From(Second(Second(Second(v))), 4 * x % 5)
  }

  lemma ColumnOrder(a: seq<Lane>, k: nat, x: nat)
    requires IsState(a) && 1 <= k <= 3 && x < 5
    ensures Column(View(a, k), x) == Ordered(Column(a, x), k, x)
  {
    hide Place, PlaceRow, Ordered, From, Second, View, At;
    ViewAt(a, k, x, 0);
    ViewAt(a, k, x, 1);
    ViewAt(a, k, x, 2);
    ViewAt(a, k, x, 3);
    ViewAt(a, k, x, 4);
    ColumnAt(a, k, x, 0);
    ColumnAt(a, k, x, 1);
    ColumnAt(a, k, x, 2);
    ColumnAt(a, k, x, 3);
    ColumnAt(a, k, x, 4);
    OrderAfter(Column(a, x), k, x);
  }

  lemma OrderAfter(v: Five<Lane>, k: nat, x: nat)
    requires 1 <= k <= 3 && x < 5
    ensures Ordered(v, k, x) == PickedRows(v, k, x)
  {
    hide Ordered, PickedRows;
    match k
    case 1 => OrderAfterOne(v, x);
    case 2 => OrderAfterTwo(v, x);
    case 3 => OrderAfterThree(v, x);
  }

  function Picked(v: Five<Lane>, r0: nat, r1: nat, r2: nat, r3: nat, r4: nat): (w: Five<Lane>)
    requires r0 < 5 && r1 < 5 && r2 < 5 && r3 < 5 && r4 < 5
  {
    Five(At(v, r0), At(v, r1), At(v, r2), At(v, r3), At(v, r4))
  }

  function PickedRows(v: Five<Lane>, k: nat, x: nat): (w: Five<Lane>)
    requires k <= 4 && x < 5
  {
    Picked(v, PlaceRow(k, x, 0), PlaceRow(k, x, 1), PlaceRow(k, x, 2), PlaceRow(k, x, 3), PlaceRow(k, x, 4))
  }

  lemma ColumnAt(a: seq<Lane>, k: nat, x: nat, y: nat)
    requires IsState(a) && k <= 4 && x < 5 && y < 5
    ensures a[Place(k, x, y)] == At(Column(a, x), PlaceRow(k, x, y))
  {
    var r := PlaceRow(k, x, y);
    assert Place(k, x, y) == x + 5 * r;
    hide PlaceRow, Place;
    match r { case 0 => case 1 => case 2 => case 3 => case 4 => }
  }

  lemma OrderAfterOne(v: Five<Lane>, x: nat)
    requires x < 5
    ensures Ordered(v, 1, x) == PickedRows(v, 1, x)
  {
    match x { case 0 => case 1 => case 2 => case 3 => case 4 => }
  }

  lemma OrderAfterTwo(v: Five<Lane>, x: nat)
    requires x < 5
    ensures Ordered(v, 2, x) == PickedRows(v, 2, x)
  {
    match x { case 0 => case 1 => case 2 => case 3 => case 4 => }
  }

  lemma OrderAfterThree(v: Five<Lane>, x: nat)
    requires x < 5
    ensures Ordered(v, 3, x) == PickedRows(v, 3, x)
  {
    match x { case 0 => case 1 => case 2 => case 3 => case 4 => }
  }

  /** So the theta effect may be computed on the cells. */
  lemma EffectInPlace(a: seq<Lane>, k: nat, x: nat)
    requires IsState(a) && k < 4 && x < 5
    ensures Effect(View(a, k), x) == Effect(a, x)
  {
    ParityInPlace(a, k, Next(x, 4));
    ParityInPlace(a, k, Next(x, 1));
    hide Parity, View, Xor, Rot, Next;
  }

  lemma ParityInPlace(a: seq<Lane>, k: nat, x: nat)
    requires IsState(a) && k < 4 && x < 5
    ensures Parity(View(a, k), x) == Parity(a, x)
  {
    ParityIsSum(a, x);
    ParityIsSum(View(a, k), x);
    var v := Column(a, x);
    hide Parity, Sum, From, Second, Column;
    if k == 0 {
      ViewAtStart(a);
    } else {
      ColumnOrder(a, k, x);
      SecondSum(v);
      SecondSum(Second(v));
      SecondSum(Second(Second(v)));
      FromSum(Second(v), 3 * x % 5);
      FromSum(Second(Second(v)), 2 * x % 5);
      FromSum(Second(Second(Second(v))), 4 * x % 5);
    }
  }

  lemma ParityIsSum(s: seq<Lane>, x: nat)
    requires IsState(s) && x < 5
    ensures Parity(s, x) == Sum(Column(s, x))
  {
    hide Xor;
  }

  /** Before and after a pass the lanes are where they belong. */
  lemma ViewAtStart(a: seq<Lane>)
    requires IsState(a)
    ensures View(a, 0) == a == View(a, 4)
  {
    forall i | 0 <= i < 25
      ensures Place(0, i % 5, i / 5) == i == Place(4, i % 5, i / 5)
    {
    }
  }

  lemma ViewAt(a: seq<Lane>, k: nat, x: nat, y: nat)
    requires IsState(a) && k <= 4 && x < 5 && y < 5
    ensures View(a, k)[x + 5 * y] == a[Place(k, x, y)]
  {
    hide Place;
    Index(x, y);
  }

  // ----- keccakF1600

  /** The rotated lanes of a row, by the column they come from. */
  ghost predicate Rotated(s: seq<Lane>, y: nat, v: Five<Lane>)
    requires IsState(s) && y < 5
  {
    forall x: nat :: x < 5 ==> At(v, x) == Rot(Xor(s[x + 5 * Source(x, y)], Effect(s, x)), Offset(x + 5 * Source(x, y)))
  }

  lemma FromAt(v: Five<Lane>, p: nat, z: nat)
    requires p < 5 && z < 5
    ensures At(From(v, p), z) == At(v, Next(z, p))
  {
    match p
    case 0 => match z { case 0 => case 1 => case 2 => case 3 => case 4 => }
    case 1 => match z { case 0 => case 1 => case 2 => case 3 => case 4 => }
    case 2 => match z { case 0 => case 1 => case 2 => case 3 => case 4 => }
    case 3 => match z { case 0 => case 1 => case 2 => case 3 => case 4 => }
    case 4 => match z { case 0 => case 1 => case 2 => case 3 => case 4 => }
  }

  lemma SourceOfNext(z: nat, y: nat)
    requires z < 5 && y < 5
    ensures Next(z, 3 * y % 5) == Next(z, 3 * y) && Source(Next(z, 3 * y), y) == z
  {
    NextModulo(z, 3 * y);
    SourceBack(z, y, Next(z, 3 * y), (z + 3 * y) / 5);
  }

  lemma NextModulo(z: nat, n: nat)
    ensures Next(z, n % 5) == Next(z, n)
  {
    Modulo5(z + n % 5, z + n, -(n / 5));
  }

  lemma SourceBack(z: nat, y: nat, x: nat, c: int)
    requires z < 5 && y < 5 && x < 5 && x == z + 3 * y - 5 * c
    ensures Source(x, y) == z
  {
    Modulo5(x + 2 * y, z, y - c);
    Small5(z);
  }

  lemma Small5(z: nat)
    requires z < 5
    ensures z % 5 == z
  {
  }

  /** The assignments of bc0 to bc4 put every lane in its new column. */
  lemma LanesTurn(s: seq<Lane>, y: nat, v: Five<Lane>, z: nat)
    requires IsState(s) && y < 5 && Rotated(s, y, v) && z < 5
    ensures At(From(v, 3 * y % 5), z) == Turned(s, y, z)
  {
    hide At, From, Xor, Rot, Effect, Offset, Next, Source;
    FromAt(v, 3 * y % 5, z);
    SourceOfNext(z, y);
    assert At(v, Next(z, 3 * y)) == At(v, Next(z, 3 * y % 5));
  }

  /** Chi of one lane of a row, with the round constant for lane 0 of row 0. */
  function Mixed(b: Five<Lane>, x: nat, y: nat, c: Lane): (m: Lane)
    requires x < 5
  {
    var v := Xor(At(b, x), AndNot(At(b, Next(x, 2)), At(b, Next(x, 1))));
    if x == 0 && y == 0 then Xor(v, c) else v
  }

  lemma MixedIsRound(s: seq<Lane>, y: nat, v: Five<Lane>, x: nat, c: Lane)
    requires IsState(s) && y < 5 && Rotated(s, y, v) && x < 5
    ensures Mixed(From(v, 3 * y % 5), x, y, c) == Round(s, c)[x + 5 * y]
  {
    hide At, From, Xor, AndNot, Rotated, Turned, Next, Round;
    LanesTurn(s, y, v, x);
    LanesTurn(s, y, v, Next(x, 1));
    LanesTurn(s, y, v, Next(x, 2));
    RoundIs(s, c, x, y);
  }

  // ----- Rows written back to their cells

  predicate CellsIn(q: Five<nat>)
  {
    q.c0 < 25 && q.c1 < 25 && q.c2 < 25 && q.c3 < 25 && q.c4 < 25
  }

  function Stored(a: seq<Lane>, q: Five<nat>, w: Five<Lane>): (r: seq<Lane>)
    requires IsState(a) && CellsIn(q)
    ensures IsState(r)
  {
    a[q.c0 := w.c0][q.c1 := w.c1][q.c2 := w.c2][q.c3 := w.c3][q.c4 := w.c4]
  }

  lemma CellsInState(k: nat, y: nat)
    requires k < 4 && y < 5
    ensures var q := Cells(k, y);
            && CellsIn(q) && q.c0 % 5 == 0 && q.c1 % 5 == 1 && q.c2 % 5 == 2 && q.c3 % 5 == 3 && q.c4 % 5 == 4
  {
    hide Place, Source, Cells;
    CellIsPlace(k, 0, y);
    CellIsPlace(k, 1, y);
    CellIsPlace(k, 2, y);
    CellIsPlace(k, 3, y);
    CellIsPlace(k, 4, y);
  }

  lemma StoredAt(a: seq<Lane>, k: nat, y: nat, w: Five<Lane>, x: nat)
    requires IsState(a) && k < 4 && y < 5 && x < 5
    ensures CellsIn(Cells(k, y)) && At(Cells(k, y), x) < 25
    ensures Stored(a, Cells(k, y), w)[At(Cells(k, y), x)] == At(w, x)
  {
    CellsInState(k, y);
    hide Cells;
  }

  /** Other rows use other cells. */
  lemma StoredElsewhere(a: seq<Lane>, k: nat, y: nat, w: Five<Lane>, x: nat, z: nat)
    requires IsState(a) && k < 4 && y < 5 && x < 5 && z < 5 && z != y
    ensures CellsIn(Cells(k, y)) && CellsIn(Cells(k, z)) && At(Cells(k, z), x) < 25
    ensures Stored(a, Cells(k, y), w)[At(Cells(k, z), x)] == a[At(Cells(k, z), x)]
  {
    CellsInState(k, y);
    CellsInState(k, z);
    var q, p := Cells(k, y), At(Cells(k, z), x);
    hide Cells;
    if p == At(q, 0) { CellsDistinct(k, 0, y, x, z); }
    if p == At(q, 1) { CellsDistinct(k, 1, y, x, z); }
    if p == At(q, 2) { CellsDistinct(k, 2, y, x, z); }
    if p == At(q, 3) { CellsDistinct(k, 3, y, x, z); }
    if p == At(q, 4) { CellsDistinct(k, 4, y, x, z); }
  }

  function RowLanes(a: seq<Lane>, k: nat, y: nat, d: Five<Lane>): (v: Five<Lane>)
    requires IsState(a) && k < 4 && y < 5
  {
    CellsInState(k, y);
    var q, r := Cells(k, y), Turns(y);
    assert At(r, 0) == r.c0 && At(r, 1) == r.c1 && At(r, 2) == r.c2 && At(r, 3) == r.c3 && At(r, 4) == r.c4;
    Five(Rot(Xor(a[q.c0], d.c0), r.c0), Rot(Xor(a[q.c1], d.c1), r.c1), Rot(Xor(a[q.c2], d.c2), r.c2),
         Rot(Xor(a[q.c3], d.c3), r.c3), Rot(Xor(a[q.c4], d.c4), r.c4))
  }

  function MixedRow(b: Five<Lane>, y: nat, c: Lane): (w: Five<Lane>)
  {
    Five(Mixed(b, 0, y, c), Mixed(b, 1, y, c), Mixed(b, 2, y, c), Mixed(b, 3, y, c), Mixed(b, 4, y, c))
  }

  /** The cells after one row. */
  function RowOf(a: seq<Lane>, k: nat, y: nat, d: Five<Lane>, c: Lane): (r: seq<Lane>)
    requires IsState(a) && k < 4 && y < 5
    ensures IsState(r)
  {
    CellsInState(k, y);
    Stored(a, Cells(k, y), MixedRow(From(RowLanes(a, k, y, d), 3 * y % 5), y, c))
  }

  function RowsOf(a: seq<Lane>, k: nat, n: nat, d: Five<Lane>, c: Lane): (r: seq<Lane>)
    requires IsState(a) && k < 4 && n <= 5
    ensures IsState(r)
  {
    if n == 0 then a else RowOf(RowsOf(a, k, n - 1, d, c), k, n - 1, d, c)
  }

  ghost predicate Effects(s: seq<Lane>, d: Five<Lane>)
    requires IsState(s)
  {
    forall x: nat :: x < 5 ==> At(d, x) == Effect(s, x)
  }

  lemma RowLaneAt(a: seq<Lane>, k: nat, y: nat, d: Five<Lane>, x: nat)
    requires IsState(a) && k < 4 && y < 5 && x < 5
    ensures At(Cells(k, y), x) < 25 && At(Turns(y), x) < 64
    ensures At(RowLanes(a, k, y, d), x) == Rot(Xor(a[At(Cells(k, y), x)], At(d, x)), At(Turns(y), x))
  {
    CellsInState(k, y);
    LaneByColumn(a, Cells(k, y), d, Turns(y), RowLanes(a, k, y, d), x);
  }

  lemma LaneByColumn(a: seq<Lane>, q: Five<nat>, d: Five<Lane>, r: Five<nat>, v: Five<Lane>, x: nat)
    requires IsState(a) && CellsIn(q) && x < 5
    requires r.c0 < 64 && r.c1 < 64 && r.c2 < 64 && r.c3 < 64 && r.c4 < 64
    requires v.c0 == Rot(Xor(a[q.c0], d.c0), r.c0) && v.c1 == Rot(Xor(a[q.c1], d.c1), r.c1)
    requires v.c2 == Rot(Xor(a[q.c2], d.c2), r.c2) && v.c3 == Rot(Xor(a[q.c3], d.c3), r.c3)
    requires v.c4 == Rot(Xor(a[q.c4], d.c4), r.c4)
    ensures At(q, x) < 25 && At(r, x) < 64 && At(v, x) == Rot(Xor(a[At(q, x)], At(d, x)), At(r, x))
  {
    hide Rot, Xor;
    match x { case 0 => case 1 => case 2 => case 3 => case 4 => }
  }

  /** The lanes of a row whose cells are untouched so far. */
  lemma LanesOfRow(a: seq<Lane>, b: seq<Lane>, k: nat, y: nat, d: Five<Lane>)
    requires IsState(a) && IsState(b) && k < 4 && y < 5 && Effects(View(a, k), d)
    requires forall x: nat :: x < 5 ==> At(Cells(k, y), x) < 25 && b[At(Cells(k, y), x)] == a[At(Cells(k, y), x)]
    ensures Rotated(View(a, k), y, RowLanes(b, k, y, d))
  {
    hide Cells, Turns, Rot, Xor, RowLanes, View, At, Offset, Source, Place, Effect;
    forall x: nat | x < 5
      ensures At(RowLanes(b, k, y, d), x)
           == Rot(Xor(View(a, k)[x + 5 * Source(x, y)], Effect(View(a, k), x)), Offset(x + 5 * Source(x, y)))
    {
      RowLaneAt(b, k, y, d, x);
      CellIsPlace(k, x, y);
      ViewAt(a, k, x, Source(x, y));
      TurnIsOffset(x, y);
    }
  }

  /** After n rows their lanes are those of the next state, and the others as before. */
  lemma {:induction false} RowsDone(a: seq<Lane>, k: nat, n: nat, d: Five<Lane>, c: Lane, x: nat, y: nat)
    requires IsState(a) && k < 4 && n <= 5 && Effects(View(a, k), d) && x < 5 && y < 5
    ensures At(Cells(k, y), x) < 25
    ensures RowsOf(a, k, n, d, c)[At(Cells(k, y), x)] ==
            if y < n then Round(View(a, k), c)[x + 5 * y] else a[At(Cells(k, y), x)]
  {
    hide Cells, Effects, Round, View, RowLanes, From, Mixed, Stored, At, Rotated;
    if n == 0 {
      CellIsPlace(k, x, y);
    } else {
      var b := RowsOf(a, k, n - 1, d, c);
      var w := MixedRow(From(RowLanes(b, k, n - 1, d), 3 * (n - 1) % 5), n - 1, c);
      if y == n - 1 {
        forall z: nat | z < 5
          ensures At(Cells(k, y), z) < 25 && b[At(Cells(k, y), z)] == a[At(Cells(k, y), z)]
        {
          RowsDone(a, k, n - 1, d, c, z, y);
        }
        LanesOfRow(a, b, k, y, d);
        StoredAt(b, k, y, w, x);
        MixedRowAt(From(RowLanes(b, k, y, d), 3 * y % 5), y, c, x);
        MixedIsRound(View(a, k), y, RowLanes(b, k, y, d), x, c);
      } else {
        RowsDone(a, k, n - 1, d, c, x, y);
        StoredElsewhere(b, k, n - 1, w, x, y);
      }
    }
  }

  lemma MixedRowAt(b: Five<Lane>, y: nat, c: Lane, x: nat)
    requires x < 5
    ensures At(MixedRow(b, y, c), x) == Mixed(b, x, y, c)
  {
    hide Mixed;
  }

  /** One round of a pass, seen through the placement, is one textbook round. */
  lemma RoundInPlace(a: seq<Lane>, k: nat, d: Five<Lane>, c: Lane)
    requires IsState(a) && k < 4 && Effects(a, d)
    ensures View(RowsOf(a, k, 5, d, c), k + 1) == Round(View(a, k), c)
  {
    hide Effects, Round, View, RowsOf;
    EffectsInPlace(a, k, d);
    var r, t := RowsOf(a, k, 5, d, c), Round(View(a, k), c);
    forall i | 0 <= i < 25
      ensures View(r, k + 1)[i] == t[i]
    {
      RoundLane(a, k, d, c, i);
    }
  }

  lemma RoundLane(a: seq<Lane>, k: nat, d: Five<Lane>, c: Lane, i: nat)
    requires IsState(a) && k < 4 && Effects(View(a, k), d) && i < 25
    ensures View(RowsOf(a, k, 5, d, c), k + 1)[i] == Round(View(a, k), c)[i]
  {
    hide Effects, Round, View, RowsOf;
    Split(i);
    RoundLaneInPlace(a, k, d, c, i % 5, i / 5);
  }

  lemma Split(i: nat)
    requires i < 25
    ensures i % 5 < 5 && i / 5 < 5 && i % 5 + 5 * (i / 5) == i
  {
  }

  lemma RoundLaneInPlace(a: seq<Lane>, k: nat, d: Five<Lane>, c: Lane, x: nat, y: nat)
    requires IsState(a) && k < 4 && Effects(View(a, k), d) && x < 5 && y < 5
    ensures View(RowsOf(a, k, 5, d, c), k + 1)[x + 5 * y] == Round(View(a, k), c)[x + 5 * y]
  {
    hide Effects, Round, View, RowsOf, At, Cells, Place, Source;
    RowsDone(a, k, 5, d, c, x, y);
    CellIsPlace(k, x, y);
    ViewAt(RowsOf(a, k, 5, d, c), k + 1, x, y);
  }

  lemma EffectsInPlace(a: seq<Lane>, k: nat, d: Five<Lane>)
    requires IsState(a) && k < 4 && Effects(a, d)
    ensures Effects(View(a, k), d)
  {
    hide Effect, View, At;
    forall x: nat | x < 5
      ensures At(d, x) == Effect(View(a, k), x)
    {
      EffectInPlace(a, k, x);
    }
  }

  // ----- keccakF1600

  lemma RotNothing(a: Lane)
    ensures Rot(a, 0) == a
  {
  }

  lemma Around(x: nat, n: nat)
    requires x < 5 && n < 5
    ensures Next(x, n) == if x + n < 5 then x + n else x + n - 5
  {
  }

  /** Chi of a row, written out. */
  lemma MixedRowIs(b: Five<Lane>, y: nat, c: Lane)
    ensures var v0 := Xor(b.c0, AndNot(b.c2, b.c1));
            MixedRow(b, y, c) ==
            Five(if y == 0 then Xor(v0, c) else v0,
                 Xor(b.c1, AndNot(b.c3, b.c2)), Xor(b.c2, AndNot(b.c4, b.c3)),
                 Xor(b.c3, AndNot(b.c0, b.c4)), Xor(b.c4, AndNot(b.c1, b.c0)))
  {
    hide Xor, AndNot, Next;
    Around(0, 1);
    Around(0, 2);
    Around(1, 1);
    Around(1, 2);
    Around(2, 1);
    Around(2, 2);
    Around(3, 1);
    Around(3, 2);
    Around(4, 1);
    Around(4, 2);
  }

  /** A row by its five turned lanes, whatever they are called. */
  lemma RowIs(a: seq<Lane>, k: nat, y: nat, d: Five<Lane>, c: Lane, b: Five<Lane>)
    requires IsState(a) && k < 4 && y < 5 && b == From(RowLanes(a, k, y, d), 3 * y % 5)
    ensures CellsIn(Cells(k, y)) && RowOf(a, k, y, d, c) == Stored(a, Cells(k, y), MixedRow(b, y, c))
  {
    CellsInState(k, y);
    hide Cells, From, RowLanes, MixedRow, Stored;
  }

  /** The first block of assignments of a round, on the cells of its row. */
  method FirstRow(a: array<Lane>, k: nat, d: Five<Lane>, c: Lane)
    requires a.Length == 25 && k < 4
    modifies a
    ensures a[..] == RowOf(old(a[..]), k, 0, d, c)
  {
    CellsInState(k, 0);
    ghost var s := a[..];
    var q := Cells(k, 0);
    var bc0 := Xor(a[q.c0], d.c0);
    var t := Xor(a[q.c1], d.c1);
    var bc1 := Rot(t, 44);
    t := Xor(a[q.c2], d.c2);
    var bc2 := Rot(t, 43);
    t := Xor(a[q.c3], d.c3);
    var bc3 := Rot(t, 21);
    t := Xor(a[q.c4], d.c4);
    var bc4 := Rot(t, 14);
    ghost var b := Five(bc0, bc1, bc2, bc3, bc4);
    RotNothing(bc0);
    FirstLanes(s, k, d, b);
    RowIs(s, k, 0, d, c, b);
    MixedRowIs(b, 0, c);
    hide Xor, AndNot, Rot, Cells, RowOf, MixedRow;
    a[q.c0] := Xor(Xor(bc0, AndNot(bc2, bc1)), c);
    a[q.c1] := Xor(bc1, AndNot(bc3, bc2));
    a[q.c2] := Xor(bc2, AndNot(bc4, bc3));
    a[q.c3] := Xor(bc3, AndNot(bc0, bc4));
    a[q.c4] := Xor(bc4, AndNot(bc1, bc0));
  }

  lemma FirstLanes(a: seq<Lane>, k: nat, d: Five<Lane>, b: Five<Lane>)
    requires IsState(a) && k < 4 && CellsIn(Cells(k, 0))
    requires b == Five(Xor(a[Cells(k, 0).c0], d.c0), Rot(Xor(a[Cells(k, 0).c1], d.c1), 44),
                       Rot(Xor(a[Cells(k, 0).c2], d.c2), 43), Rot(Xor(a[Cells(k, 0).c3], d.c3), 21), Rot(Xor(a[Cells(k, 0).c4], d.c4), 14))
    ensures b == From(RowLanes(a, k, 0, d), 0)
  {
    RotNothing(b.c0);
    hide Xor, Rot, Cells;
  }

  /** The second block of assignments of a round, on the cells of its row. */
  method SecondRow(a: array<Lane>, k: nat, d: Five<Lane>, ghost c: Lane)
    requires a.Length == 25 && k < 4
    modifies a
    ensures a[..] == RowOf(old(a[..]), k, 1, d, c)
  {
    CellsInState(k, 1);
    ghost var s := a[..];
    var q := Cells(k, 1);
    var t := Xor(a[q.c0], d.c0);
    var bc2 := Rot(t, 3);
    t := Xor(a[q.c1], d.c1);
    var bc3 := Rot(t, 45);
    t := Xor(a[q.c2], d.c2);
    var bc4 := Rot(t, 61);
    t := Xor(a[q.c3], d.c3);
    var bc0 := Rot(t, 28);
    t := Xor(a[q.c4], d.c4);
    var bc1 := Rot(t, 20);
    ghost var b := Five(bc0, bc1, bc2, bc3, bc4);
    SecondLanes(s, k, d, b);
    RowIs(s, k, 1, d, c, b);
    MixedRowIs(b, 1, c);
    hide Xor, AndNot, Rot, Cells, RowOf, MixedRow;
    a[q.c0] := Xor(bc0, AndNot(bc2, bc1));
    a[q.c1] := Xor(bc1, AndNot(bc3, bc2));
    a[q.c2] := Xor(bc2, AndNot(bc4, bc3));
    a[q.c3] := Xor(bc3, AndNot(bc0, bc4));
    a[q.c4] := Xor(bc4, AndNot(bc1, bc0));
  }

  lemma SecondLanes(a: seq<Lane>, k: nat, d: Five<Lane>, b: Five<Lane>)
    requires IsState(a) && k < 4 && CellsIn(Cells(k, 1))
    requires b == Five(Rot(Xor(a[Cells(k, 1).c3], d.c3), 28), Rot(Xor(a[Cells(k, 1).c4], d.c4), 20),
                       Rot(Xor(a[Cells(k, 1).c0], d.c0), 3), Rot(Xor(a[Cells(k, 1).c1], d.c1), 45), Rot(Xor(a[Cells(k, 1).c2], d.c2), 61))
    ensures b == From(RowLanes(a, k, 1, d), 3 * 1 % 5)
  {
    RotNothing(b.c0);
    hide Xor, Rot, Cells;
  }

  /** The third block of assignments of a round, on the cells of its row. */
  method ThirdRow(a: array<Lane>, k: nat, d: Five<Lane>, ghost c: Lane)
    requires a.Length == 25 && k < 4
    modifies a
    ensures a[..] == RowOf(old(a[..]), k, 2, d, c)
  {
    CellsInState(k, 2);
    ghost var s := a[..];
    var q := Cells(k, 2);
    var t := Xor(a[q.c0], d.c0);
    var bc4 := Rot(t, 18);
    t := Xor(a[q.c1], d.c1);
    var bc0 := Rot(t, 1);
    t := Xor(a[q.c2], d.c2);
    var bc1 := Rot(t, 6);
    t := Xor(a[q.c3], d.c3);
    var bc2 := Rot(t, 25);
    t := Xor(a[q.c4], d.c4);
    var bc3 := Rot(t, 8);
    ghost var b := Five(bc0, bc1, bc2, bc3, bc4);
    ThirdLanes(s, k, d, b);
    RowIs(s, k, 2, d, c, b);
    MixedRowIs(b, 2, c);
    hide Xor, AndNot, Rot, Cells, RowOf, MixedRow;
    a[q.c0] := Xor(bc0, AndNot(bc2, bc1));
    a[q.c1] := Xor(bc1, AndNot(bc3, bc2));
    a[q.c2] := Xor(bc2, AndNot(bc4, bc3));
    a[q.c3] := Xor(bc3, AndNot(bc0, bc4));
    a[q.c4] := Xor(bc4, AndNot(bc1, bc0));
  }

  lemma ThirdLanes(a: seq<Lane>, k: nat, d: Five<Lane>, b: Five<Lane>)
    requires IsState(a) && k < 4 && CellsIn(Cells(k, 2))
    requires b == Five(Rot(Xor(a[Cells(k, 2).c1], d.c1), 1), Rot(Xor(a[Cells(k, 2).c2], d.c2), 6),
                       Rot(Xor(a[Cells(k, 2).c3], d.c3), 25), Rot(Xor(a[Cells(k, 2).c4], d.c4), 8), Rot(Xor(a[Cells(k, 2).c0], d.c0), 18))
    ensures b == From(RowLanes(a, k, 2, d), 3 * 2 % 5)
  {
    RotNothing(b.c0);
    hide Xor, Rot, Cells;
  }

  /** The fourth block of assignments of a round, on the cells of its row. */
  method FourthRow(a: array<Lane>, k: nat, d: Five<Lane>, ghost c: Lane)
    requires a.Length == 25 && k < 4
    modifies a
    ensures a[..] == RowOf(old(a[..]), k, 3, d, c)
  {
    CellsInState(k, 3);
    ghost var s := a[..];
    var q := Cells(k, 3);
    var t := Xor(a[q.c0], d.c0);
    var bc1 := Rot(t, 36);
    t := Xor(a[q.c1], d.c1);
    var bc2 := Rot(t, 10);
    t := Xor(a[q.c2], d.c2);
    var bc3 := Rot(t, 15);
    t := Xor(a[q.c3], d.c3);
    var bc4 := Rot(t, 56);
    t := Xor(a[q.c4], d.c4);
    var bc0 := Rot(t, 27);
    ghost var b := Five(bc0, bc1, bc2, bc3, bc4);
    FourthLanes(s, k, d, b);
    RowIs(s, k, 3, d, c, b);
    MixedRowIs(b, 3, c);
    hide Xor, AndNot, Rot, Cells, RowOf, MixedRow;
    a[q.c0] := Xor(bc0, AndNot(bc2, bc1));
    a[q.c1] := Xor(bc1, AndNot(bc3, bc2));
    a[q.c2] := Xor(bc2, AndNot(bc4, bc3));
    a[q.c3] := Xor(bc3, AndNot(bc0, bc4));
    a[q.c4] := Xor(bc4, AndNot(bc1, bc0));
  }

  lemma FourthLanes(a: seq<Lane>, k: nat, d: Five<Lane>, b: Five<Lane>)
    requires IsState(a) && k < 4 && CellsIn(Cells(k, 3))
    requires b == Five(Rot(Xor(a[Cells(k, 3).c4], d.c4), 27), Rot(Xor(a[Cells(k, 3).c0], d.c0), 36),
                       Rot(Xor(a[Cells(k, 3).c1], d.c1), 10), Rot(Xor(a[Cells(k, 3).c2], d.c2), 15), Rot(Xor(a[Cells(k, 3).c3], d.c3), 56))
    ensures b == From(RowLanes(a, k, 3, d), 3 * 3 % 5)
  {
    RotNothing(b.c0);
    hide Xor, Rot, Cells;
  }

  /** The fifth block of assignments of a round, on the cells of its row. */
  method FifthRow(a: array<Lane>, k: nat, d: Five<Lane>, ghost c: Lane)
    requires a.Length == 25 && k < 4
    modifies a
    ensures a[..] == RowOf(old(a[..]), k, 4, d, c)
  {
    CellsInState(k, 4);
    ghost var s := a[..];
    var q := Cells(k, 4);
    var t := Xor(a[q.c0], d.c0);
    var bc3 := Rot(t, 41);
    t := Xor(a[q.c1], d.c1);
    var bc4 := Rot(t, 2);
    t := Xor(a[q.c2], d.c2);
    var bc0 := Rot(t, 62);
    t := Xor(a[q.c3], d.c3);
    var bc1 := Rot(t, 55);
    t := Xor(a[q.c4], d.c4);
    var bc2 := Rot(t, 39);
    ghost var b := Five(bc0, bc1, bc2, bc3, bc4);
    FifthLanes(s, k, d, b);
    RowIs(s, k, 4, d, c, b);
    MixedRowIs(b, 4, c);
    hide Xor, AndNot, Rot, Cells, RowOf, MixedRow;
    a[q.c0] := Xor(bc0, AndNot(bc2, bc1));
    a[q.c1] := Xor(bc1, AndNot(bc3, bc2));
    a[q.c2] := Xor(bc2, AndNot(bc4, bc3));
    a[q.c3] := Xor(bc3, AndNot(bc0, bc4));
    a[q.c4] := Xor(bc4, AndNot(bc1, bc0));
  }

  lemma FifthLanes(a: seq<Lane>, k: nat, d: Five<Lane>, b: Five<Lane>)
    requires IsState(a) && k < 4 && CellsIn(Cells(k, 4))
    requires b == Five(Rot(Xor(a[Cells(k, 4).c2], d.c2), 62), Rot(Xor(a[Cells(k, 4).c3], d.c3), 55),
                       Rot(Xor(a[Cells(k, 4).c4], d.c4), 39), Rot(Xor(a[Cells(k, 4).c0], d.c0), 41), Rot(Xor(a[Cells(k, 4).c1], d.c1), 2))
    ensures b == From(RowLanes(a, k, 4, d), 3 * 4 % 5)
  {
    RotNothing(b.c0);
    hide Xor, Rot, Cells;
  }

  /** The parities of the columns and the theta effects d0 to d4, of the cells as they stand. */
  method ThetaEffects(a: array<Lane>) returns (d: Five<Lane>)
    requires a.Length == 25
    ensures Effects(a[..], d)
  {
    hide Xor, Rot, Effects, Effect;
    var bc0 := Xor(Xor(Xor(Xor(a[0], a[5]), a[10]), a[15]), a[20]);
    var bc1 := Xor(Xor(Xor(Xor(a[1], a[6]), a[11]), a[16]), a[21]);
    var bc2 := Xor(Xor(Xor(Xor(a[2], a[7]), a[12]), a[17]), a[22]);
    var bc3 := Xor(Xor(Xor(Xor(a[3], a[8]), a[13]), a[18]), a[23]);
    var bc4 := Xor(Xor(Xor(Xor(a[4], a[9]), a[14]), a[19]), a[24]);
    var d0 := Xor(bc4, Rot(bc1, 1));
    var d1 := Xor(bc0, Rot(bc2, 1));
    var d2 := Xor(bc1, Rot(bc3, 1));
    var d3 := Xor(bc2, Rot(bc4, 1));
    var d4 := Xor(bc3, Rot(bc0, 1));
    d := Five(d0, d1, d2, d3, d4);
    EffectsAre(a[..], Five(bc0, bc1, bc2, bc3, bc4), d);
  }

  lemma EffectsAre(s: seq<Lane>, p: Five<Lane>, d: Five<Lane>)
    requires IsState(s)
    requires p == Five(Parity(s, 0), Parity(s, 1), Parity(s, 2), Parity(s, 3), Parity(s, 4))
    requires d == Five(Xor(p.c4, Rot(p.c1, 1)), Xor(p.c0, Rot(p.c2, 1)), Xor(p.c1, Rot(p.c3, 1)),
                       Xor(p.c2, Rot(p.c4, 1)), Xor(p.c3, Rot(p.c0, 1)))
    ensures Effects(s, d)
  {
    hide Xor, Rot, Parity;
    forall x: nat | x < 5
      ensures At(d, x) == Effect(s, x)
    {
      match x { case 0 => case 1 => case 2 => case 3 => case 4 => }
    }
  }

  lemma NoRows(a: seq<Lane>, k: nat, d: Five<Lane>, c: Lane)
    requires IsState(a) && k < 4
    ensures RowsOf(a, k, 0, d, c) == a
  {
  }

  lemma OneMoreRow(a: seq<Lane>, k: nat, y: nat, d: Five<Lane>, c: Lane)
    requires IsState(a) && k < 4 && y < 5
    ensures RowsOf(a, k, y + 1, d, c) == RowOf(RowsOf(a, k, y, d, c), k, y, d, c)
  {
    hide RowOf;
  }

  /** One of the four rounds of a pass. */
  method RoundAt(a: array<Lane>, k: nat, c: Lane)
    requires a.Length == 25 && k < 4
    modifies a
    ensures View(a[..], k + 1) == Round(View(old(a[..]), k), c)
  {
    ghost var s := a[..];
    hide Effect, Round, View, RowOf, RowsOf;
    var d := ThetaEffects(a);
    hide Effects;
    NoRows(s, k, d, c);
    FirstRow(a, k, d, c);
    OneMoreRow(s, k, 0, d, c);
    SecondRow(a, k, d, c);
    OneMoreRow(s, k, 1, d, c);
    ThirdRow(a, k, d, c);
    OneMoreRow(s, k, 2, d, c);
    FourthRow(a, k, d, c);
    OneMoreRow(s, k, 3, d, c);
    FifthRow(a, k, d, c);
    OneMoreRow(s, k, 4, d, c);
    RoundInPlace(s, k, d, c);
  }

  /** A pass of four rounds, after which every lane is back in its place. */
  method FourInPlace(a: array<Lane>, c0: Lane, c1: Lane, c2: Lane, c3: Lane)
    requires a.Length == 25
    modifies a
    ensures a[..] == Round(Round(Round(Round(old(a[..]), c0), c1), c2), c3)
  {
    hide Round, View;
    ViewAtStart(a[..]);
    RoundAt(a, 0, c0);
    RoundAt(a, 1, c1);
    RoundAt(a, 2, c2);
    RoundAt(a, 3, c3);
    ViewAtStart(a[..]);
  }

  /** keccakF1600 */
  method KeccakF1600(a: array<Lane>)
    requires a.Length == 25
    modifies a
    ensures a[..] == Rounds(old(a[..]), 24)
  {
    hide Round, Rounds, Constant;
    ghost var s := a[..];
    var i := 0;
    NoRounds(s);
    while i < 24
      invariant 0 <= i <= 24 && i % 4 == 0 && a[..] == Rounds(s, i)
    {
      FourInPlace(a, Constant(i), Constant(i + 1), Constant(i + 2), Constant(i + 3));
      FourRounds(s, i);
      i := i + 4;
    }
  }

  lemma NoRounds(s: seq<Lane>)
    requires IsState(s)
    ensures Rounds(s, 0) == s
  {
  }

  lemma FourRounds(s: seq<Lane>, i: nat)
    requires IsState(s) && i + 4 <= 24
    ensures Rounds(s, i + 4) == Round(Round(Round(Round(Rounds(s, i), Constant(i)), Constant(i + 1)), Constant(i + 2)), Constant(i + 3))
  {
    hide Round, Constant;
    assert Rounds(s, i + 1) == Round(Rounds(s, i), Constant(i));
    assert Rounds(s, i + 2) == Round(Rounds(s, i + 1), Constant(i + 1));
    assert Rounds(s, i + 3) == Round(Rounds(s, i + 2), Constant(i + 2));
  }
}
