/** Short decompositions of scalars along a lattice (GLV), by Babai rounding. */
module Lattice {
  import opened Congruence
  import opened Powers

  const ORDER: nat := 21888242871839275222246405745257275088548364400416034343698204186575808495617
  const HALF_ORDER: nat := 10944121435919637611123202872628637544274182200208017171849102093287904247808

  datatype Lattice = Lattice(vectors: seq<seq<int>>, inverse: seq<int>, det: int)

  ghost predicate Square(l: Lattice)
  {
    |l.inverse| == |l.vectors| > 0 && l.det > 0 && forall j :: 0 <= j < |l.vectors| ==> |l.vectors[j]| == |l.vectors|
  }

  /** round, which compares with half the group order; big.Int.DivMod is Euclidean. */
  function Round(num: int, denom: int, half: int): (c: int)
    requires denom > 0
  {
    if num % denom > half then num / denom + 1 else num / denom
  }

  /** How far the rounded quotient is off, times the denominator. */
  lemma RoundError(num: int, denom: int, half: int)
    requires denom > half >= 0
    ensures -half <= denom * Round(num, denom, half) - num < denom - half
  {
    var q, r := num / denom, num % denom;
    assert num == denom * q + r;
    assert denom * (q + 1) == denom * q + denom;
  }

  /** The distance of c from num / denom, times the denominator. */
  function Off(num: int, denom: int, c: int): (d: int)
  {
    if denom * c >= num then denom * c - num else num - denom * c
  }

  /** It rounds to a nearest integer exactly when the remainder falls on the same side
      of half the group order as of half the denominator. */
  lemma RoundIsNearestIff(num: int, denom: int, half: int)
    requires denom > 0
    ensures (forall c: int {:trigger Off(num, denom, c)} :: Off(num, denom, Round(num, denom, half)) <= Off(num, denom, c))
       <==> (if num % denom > half then 2 * (num % denom) >= denom else 2 * (num % denom) <= denom)
  {
    var q, r := num / denom, num % denom;
    assert num == denom * q + r;
    assert denom * (q + 1) == denom * q + denom;
    assert Off(num, denom, q) == r && Off(num, denom, q + 1) == denom - r;
    forall c: int
      ensures Off(num, denom, c) >= r || Off(num, denom, c) >= denom - r
    {
      FarAway(denom, q, c);
    }
  }

  lemma FarAway(denom: int, q: int, c: int)
    requires denom > 0
    ensures c <= q ==> denom * c <= denom * q
    ensures c > q ==> denom * c >= denom * q + denom
  {
    if c <= q {
      assert denom * (q - c) >= 0;
      assert denom * q == denom * c + denom * (q - c);
    } else {
      assert denom * (c - q - 1) >= 0;
      assert denom * c == denom * q + denom + denom * (c - q - 1);
    }
  }

  // ----- decompose

  /** The sum of c[j] * vectors[j][i] for j below m. */
  function Combined(l: Lattice, c: seq<int>, i: nat, m: nat): (s: int)
    requires Square(l) && i < |l.vectors| && m <= |c| && m <= |l.vectors|
  {
    if m == 0 then 0 else Combined(l, c, i, m - 1) + c[m - 1] * l.vectors[m - 1][i]
  }

  function Coefficients(l: Lattice, k: int): (c: seq<int>)
    requires Square(l)
    ensures |c| == |l.vectors|
  {
    seq(|l.vectors|, j requires 0 <= j < |l.vectors| => Round(k * l.inverse[j], l.det, HALF_ORDER))
  }

  /** (k, 0, ...) less the rounded lattice point, plus twice the first vector. */
  function Part(l: Lattice, k: int, i: nat): (x: int)
    requires Square(l) && i < |l.vectors|
  {
    2 * l.vectors[0][i] - Combined(l, Coefficients(l, k), i, |l.vectors|) + if i == 0 then k else 0
  }

  method Decompose(l: Lattice, k: int) returns (parts: seq<int>)
    requires Square(l)
    ensures |parts| == |l.vectors| && forall i :: 0 <= i < |parts| ==> parts[i] == Part(l, k, i)
  {
    var n := |l.inverse|;
    var c := new int[n];
    for i := 0 to n
      invariant forall j :: 0 <= j < i ==> c[j] == Coefficients(l, k)[j]
    {
      c[i] := Round(k * l.inverse[i], l.det, HALF_ORDER);
    }
    assert c[..] == Coefficients(l, k);
    var out := new int[n];
    for i := 0 to n
      invariant c[..] == Coefficients(l, k)
      invariant forall h :: 0 <= h < i ==> out[h] == Part(l, k, h) - if h == 0 then k else 0
    {
      out[i] := 0;
      for j := 0 to n
        invariant c[..] == Coefficients(l, k)
        invariant out[i] == Combined(l, Coefficients(l, k), i, j)
        invariant forall h :: 0 <= h < i ==> out[h] == Part(l, k, h) - if h == 0 then k else 0
      {
        assert c[j] == c[..][j];
        out[i] := out[i] + c[j] * l.vectors[j][i];
      }
      out[i] := -out[i];
      out[i] := out[i] + l.vectors[0][i] + l.vectors[0][i];
    }
    out[0] := out[0] + k;
    parts := out[..];
  }

  /** The sum of w[i] * v[i] for i below m. */
  function Dot(w: seq<int>, v: seq<int>, m: nat): (s: int)
    requires m <= |w| && m <= |v|
  {
    if m == 0 then 0 else Dot(w, v, m - 1) + w[m - 1] * v[m - 1]
  }

  /** Every basis vector is zero under the weights. */
  ghost predicate Vanishes(l: Lattice, w: seq<int>, n: nat)
    requires Square(l) && n > 0
  {
    |w| == |l.vectors| && forall j :: 0 <= j < |l.vectors| ==> Cong(Dot(w, l.vectors[j], |w|), 0, n)
  }

  function CombinedAll(l: Lattice, c: seq<int>, m: nat): (v: seq<int>)
    requires Square(l) && m <= |c| && m <= |l.vectors|
    ensures |v| == |l.vectors|
  {
    seq(|l.vectors|, i requires 0 <= i < |l.vectors| => Combined(l, c, i, m))
  }

  lemma CombinedNext(l: Lattice, c: seq<int>, m: nat, i: nat)
    requires Square(l) && 0 < m <= |c| && m <= |l.vectors| && i < |l.vectors|
    ensures CombinedAll(l, c, m)[i] == Combined(l, c, i, m)
    ensures CombinedAll(l, c, m - 1)[i] == Combined(l, c, i, m - 1)
    ensures Combined(l, c, i, m) == Combined(l, c, i, m - 1) + c[m - 1] * l.vectors[m - 1][i]
  {
  }

  lemma {:induction false} DotCombined(l: Lattice, c: seq<int>, w: seq<int>, m: nat, h: nat)
    requires Square(l) && 0 < m <= |c| && m <= |l.vectors| == |w| && h <= |w|
    ensures Dot(w, CombinedAll(l, c, m), h) == Dot(w, CombinedAll(l, c, m - 1), h) + c[m - 1] * Dot(w, l.vectors[m - 1], h)
  {
    assert |l.vectors[m - 1]| == |w|;
    hide Square, CombinedAll, Combined;
    if h > 0 {
      CombinedNext(l, c, m, h - 1);
      DotCombined(l, c, w, m, h - 1);
      Distribute(w[h - 1], Combined(l, c, h - 1, m - 1), c[m - 1], l.vectors[m - 1][h - 1], Dot(w, l.vectors[m - 1], h - 1));
    }
  }

  lemma Distribute(w: int, x: int, c: int, v: int, d: int)
    ensures w * (x + c * v) + c * d == w * x + c * (d + w * v)
  {
    assert w * (x + c * v) == w * x + w * (c * v);
    assert w * (c * v) == c * (w * v);
    assert c * (d + w * v) == c * d + c * (w * v);
  }

  /** A combination of vanishing vectors vanishes. */
  lemma {:induction false} CombinationVanishes(l: Lattice, c: seq<int>, w: seq<int>, m: nat, n: nat)
    requires Square(l) && n > 0 && Vanishes(l, w, n) && m <= |c| == |l.vectors|
    ensures Cong(Dot(w, CombinedAll(l, c, m), |w|), 0, n)
  {
    hide Cong;
    if m == 0 {
      DotZeros(w, CombinedAll(l, c, 0), |w|);
      CongRefl(0, n);
    } else {
      CombinationVanishes(l, c, w, m - 1, n);
      DotCombined(l, c, w, m, |w|);
      CongMul(Dot(w, l.vectors[m - 1], |w|), 0, c[m - 1], n);
      CongAdd(Dot(w, CombinedAll(l, c, m - 1), |w|), 0, c[m - 1] * Dot(w, l.vectors[m - 1], |w|), c[m - 1] * 0, n);
    }
  }

  lemma {:induction false} DotZeros(w: seq<int>, v: seq<int>, m: nat)
    requires m <= |w| == |v| && forall i :: 0 <= i < |v| ==> v[i] == 0
    ensures Dot(w, v, m) == 0
  {
    if m > 0 {
      DotZeros(w, v, m - 1);
    }
  }

  lemma {:induction false} DotParts(l: Lattice, k: int, w: seq<int>, parts: seq<int>, m: nat)
    requires Square(l) && |w| == |parts| == |l.vectors| && m <= |w|
    requires forall i :: 0 <= i < |parts| ==> parts[i] == Part(l, k, i)
    ensures Dot(w, parts, m) == 2 * Dot(w, l.vectors[0], m)
                              - Dot(w, CombinedAll(l, Coefficients(l, k), |l.vectors|), m) + if m > 0 then w[0] * k else 0
  {
    hide Coefficients;
    if m > 0 {
      DotParts(l, k, w, parts, m - 1);
      var x, y, z := l.vectors[0][m - 1], Combined(l, Coefficients(l, k), m - 1, |l.vectors|), if m == 1 then k else 0;
      assert parts[m - 1] == 2 * x - y + z;
      assert w[m - 1] * (2 * x - y + z) == 2 * (w[m - 1] * x) - w[m - 1] * y + w[m - 1] * z;
    }
  }

  /** For any lattice that vanishes under the weights, the parts recombine to k. */
  lemma PartsRecombine(l: Lattice, k: int, w: seq<int>, parts: seq<int>, n: nat)
    requires Square(l) && n > 0 && Vanishes(l, w, n) && |parts| == |l.vectors|
    requires forall i :: 0 <= i < |parts| ==> parts[i] == Part(l, k, i)
    ensures Cong(Dot(w, parts, |w|), w[0] * k, n)
  {
    hide Cong, Coefficients, Dot, Part;
    var c := Coefficients(l, k);
    var a, b := Dot(w, l.vectors[0], |w|), Dot(w, CombinedAll(l, c, |c|), |w|);
    CombinationVanishes(l, c, w, |c|, n);
    DotParts(l, k, w, parts, |w|);
    CongMul(a, 0, 2, n);
    CongAdd(2 * a, 2 * 0, b, 0, n);
    CongRefl(w[0] * k, n);
    CongAdd(2 * a - b, 0, w[0] * k, w[0] * k, n);
  }

  // ----- The two lattices of bn256

  /** curveLattice; its determinant is twice the group order. */
  const CURVE := Lattice(
    [[147946756881789319000765030803803410728, 147946756881789319010696353538189108491],
     [147946756881789319020627676272574806254, -147946756881789318990833708069417712965]],
    [147946756881789318990833708069417712965, 147946756881789319010696353538189108491],
    43776485743678550444492811490514550177096728800832068687396408373151616991234)

  /** The cube root of one modulo the order that the curve endomorphism multiplies by. */
  const LAMBDA: nat := 4407920970296243842393367215006156084916469457145843978461

  const BOUND129: nat := 0x200000000000000000000000000000000

  lemma CurveVanishes()
    ensures Square(CURVE) && Vanishes(CURVE, [1, LAMBDA], ORDER)
  {
    var w := [1, LAMBDA];
    DotPair(w, CURVE.vectors[0]);
    DotPair(w, CURVE.vectors[1]);
    CongFrom(CURVE.vectors[0][0] + LAMBDA * CURVE.vectors[0][1], 0, 29793968203157093287, ORDER);
    CongFrom(CURVE.vectors[1][0] + LAMBDA * CURVE.vectors[1][1], 0, -29793968203157093283, ORDER);
  }

  lemma DotPair(w: seq<int>, v: seq<int>)
    requires |w| == |v| == 2
    ensures Dot(w, v, 2) == w[0] * v[0] + w[1] * v[1]
  {
    assert Dot(w, v, 1) == Dot(w, v, 0) + w[0] * v[0];
  }

  lemma CombinedPair(l: Lattice, c: seq<int>, i: nat)
    requires Square(l) && |l.vectors| == 2 == |c| && i < 2
    ensures Combined(l, c, i, 2) == c[0] * l.vectors[0][i] + c[1] * l.vectors[1][i]
  {
    assert Combined(l, c, i, 1) == Combined(l, c, i, 0) + c[0] * l.vectors[0][i];
  }

  /** Both parts are positive and below 2^129, for every integer k. */
  lemma CurveShort(k: int)
    ensures Square(CURVE)
    ensures 0 < Part(CURVE, k, 0) < BOUND129 && 0 < Part(CURVE, k, 1) < BOUND129
  {
    var c := Coefficients(CURVE, k);
    CombinedPair(CURVE, c, 0);
    CombinedPair(CURVE, c, 1);
    RoundError(k * CURVE.inverse[0], CURVE.det, HALF_ORDER);
    RoundError(k * CURVE.inverse[1], CURVE.det, HALF_ORDER);
  }

  /** The decomposition behind curvePoint.Mul. */
  lemma CurveRecombines(k: int)
    ensures Square(CURVE) && Cong(Part(CURVE, k, 0) + LAMBDA * Part(CURVE, k, 1), k, ORDER)
  {
    CurveVanishes();
    var parts := [Part(CURVE, k, 0), Part(CURVE, k, 1)];
    PartsRecombine(CURVE, k, [1, LAMBDA], parts, ORDER);
    DotPair([1, LAMBDA], parts);
  }

  /** targetLattice */
  const TARGET := Lattice(
    [[9931322734385697761, 9931322734385697761, 9931322734385697763, 9931322734385697764],
     [4965661367192848881, 4965661367192848881, 4965661367192848882, -9931322734385697762],
     [-9931322734385697762, -4965661367192848881, 4965661367192848881, -4965661367192848882],
     [9931322734385697763, -4965661367192848881, -4965661367192848881, -4965661367192848881]],
    [734653495049373973658254490726798021314063399421879442165,
     147946756881789319000765030803803410728,
     -147946756881789319005730692170996259609,
     1469306990098747947464455738335385361643788813749140841702],
    ORDER)

  const BOUND66: nat := 0x40000000000000000

  lemma CombinedFour(l: Lattice, c: seq<int>, i: nat)
    requires Square(l) && |l.vectors| == 4 == |c| && i < 4
    ensures Combined(l, c, i, 4) ==
              c[0] * l.vectors[0][i] + c[1] * l.vectors[1][i] + c[2] * l.vectors[2][i] + c[3] * l.vectors[3][i]
  {
    assert Combined(l, c, i, 1) == Combined(l, c, i, 0) + c[0] * l.vectors[0][i];
    assert Combined(l, c, i, 2) == Combined(l, c, i, 1) + c[1] * l.vectors[1][i];
    assert Combined(l, c, i, 3) == Combined(l, c, i, 2) + c[2] * l.vectors[2][i];
  }

  lemma TargetShort(k: int, i: nat)
    requires i < 4
    ensures Square(TARGET) && 0 < Part(TARGET, k, i) < BOUND66
  {
    var c := Coefficients(TARGET, k);
    CombinedFour(TARGET, c, i);
    RoundError(k * TARGET.inverse[0], TARGET.det, HALF_ORDER);
    RoundError(k * TARGET.inverse[1], TARGET.det, HALF_ORDER);
    RoundError(k * TARGET.inverse[2], TARGET.det, HALF_ORDER);
    RoundError(k * TARGET.inverse[3], TARGET.det, HALF_ORDER);
  }

  /** The eigenvalue that targetLattice belongs to, and its powers modulo the order. */
  const MU: nat := 21888242871839275217838484774961031245859103671646299620770273345087971997936
  const MU2: nat := 4407920970296243842393367215006156084916469457145843978462
  const MU3: nat := 21888242871839275217838484774961031246007050428528088939761107053157389710902

  lemma EigenvaluePowers()
    ensures Cong(MU * MU, MU2, ORDER) && Cong(MU2 * MU, MU3, ORDER)
  {
    CongFrom(MU * MU, MU2, 21888242871839275213430563804664787404057523484167300811906520624829270151202, ORDER);
    CongFrom(MU2 * MU, MU3, 4407920970296243841505686673715420170911879272323023514090, ORDER);
  }

  lemma DotFour(w: seq<int>, v: seq<int>)
    requires |w| == |v| == 4
    ensures Dot(w, v, 4) == w[0] * v[0] + w[1] * v[1] + w[2] * v[2] + w[3] * v[3]
  {
    assert Dot(w, v, 1) == Dot(w, v, 0) + w[0] * v[0];
    assert Dot(w, v, 2) == Dot(w, v, 1) + w[1] * v[1];
    assert Dot(w, v, 3) == Dot(w, v, 2) + w[2] * v[2];
  }

  /** The weights are the powers of the eigenvalue. */
  lemma TargetVanishes()
    ensures Cong(MU * MU, MU2, ORDER) && Cong(MU2 * MU, MU3, ORDER)
    ensures Square(TARGET) && Vanishes(TARGET, [1, MU, MU2, MU3], ORDER)
  {
    EigenvaluePowers();
    var w := [1, MU, MU2, MU3];
    TargetRow(0, 19862645468771395523);
    TargetRow(1, -4965661367192848879);
    TargetRow(2, -9931322734385697760);
    TargetRow(3, -9931322734385697761);
  }

  lemma TargetRow(j: nat, k: int)
    requires j < 4
    requires var v := TARGET.vectors[j]; v[0] + MU * v[1] + MU2 * v[2] + MU3 * v[3] == k * ORDER
    ensures Cong(Dot([1, MU, MU2, MU3], TARGET.vectors[j], 4), 0, ORDER)
  {
    DotFour([1, MU, MU2, MU3], TARGET.vectors[j]);
    CongFrom(Dot([1, MU, MU2, MU3], TARGET.vectors[j], 4), 0, k, ORDER);
  }

  /** The four parts, weighted by the powers of the eigenvalue, make up the scalar. */
  lemma TargetRecombines(k: int)
    ensures Square(TARGET)
    ensures Cong(Part(TARGET, k, 0) + MU * Part(TARGET, k, 1) + MU2 * Part(TARGET, k, 2) + MU3 * Part(TARGET, k, 3), k, ORDER)
  {
    TargetVanishes();
    hide Part, Vanishes;
    var parts := [Part(TARGET, k, 0), Part(TARGET, k, 1), Part(TARGET, k, 2), Part(TARGET, k, 3)];
    PartsRecombine(TARGET, k, [1, MU, MU2, MU3], parts, ORDER);
    DotFour([1, MU, MU2, MU3], parts);
  }

  /** The comment on round promises a nearest integer; with curveLattice it is not one. */
  lemma CurveRoundsOff()
    ensures var num := 100000000000000000000000000000000000000 * CURVE.inverse[0];
            Round(num, CURVE.det, HALF_ORDER) == 1 && Off(num, CURVE.det, 0) < Off(num, CURVE.det, 1)
  {
  }

  // ----- Multi

  /** Bit i of every part, the first part lowest. */
  function Digit(parts: seq<nat>, i: nat, m: nat): (d: nat)
    requires m <= |parts|
    ensures d < Pow2(m)
  {
    if m == 0 then 0 else Digit(parts, i, m - 1) + Bit(parts[m - 1], i) * Pow2(m - 1)
  }

  ghost predicate Positive(l: Lattice, k: int)
    requires Square(l)
  {
    forall i :: 0 <= i < |l.vectors| ==> Part(l, k, i) > 0
  }

  function Max(parts: seq<nat>, m: nat): (x: nat)
    requires m <= |parts|
  {
    if m == 0 then 0
    else
      var x := Max(parts, m - 1);
      if BitLen(parts[m - 1]) > x then BitLen(parts[m - 1]) else x
  }

  function Parts(l: Lattice, k: int): (parts: seq<nat>)
    requires Square(l) && Positive(l, k)
  {
    seq(|l.vectors|, i requires 0 <= i < |l.vectors| => Part(l, k, i))
  }

  /** The joint digits, as many as the longest part has bits. */
  method Multi(l: Lattice, k: int) returns (digits: seq<nat>)
    requires Square(l) && |l.vectors| <= 8 && Positive(l, k)
    ensures var parts := Parts(l, k);
            && |digits| == Max(parts, |parts|)
            && forall i :: 0 <= i < |digits| ==> digits[i] == Digit(parts, i, |parts|)
  {
    var decomp := Decompose(l, k);
    assert decomp == Parts(l, k);
    digits := JoinBits(decomp);
  }

  /** Its loops, over 8-bit cells that never overflow. */
  method JoinBits(decomp: seq<nat>) returns (digits: seq<nat>)
    requires |decomp| <= 8
    ensures |digits| == Max(decomp, |decomp|)
    ensures forall i :: 0 <= i < |digits| ==> digits[i] == Digit(decomp, i, |decomp|)
  {
    hide Bit, BitLen;
    var maxLen := 0;
    for j := 0 to |decomp|
      invariant maxLen == Max(decomp, j)
    {
      if BitLen(decomp[j]) > maxLen {
        maxLen := BitLen(decomp[j]);
      }
    }
    assert forall h: nat :: Digit(decomp, h, 0) == 0;
    hide Digit, Pow2;
    var cells := new nat[maxLen](_ => 0);
    for j := 0 to |decomp|
      invariant forall h :: 0 <= h < maxLen ==> cells[h] == Digit(decomp, h, j)
    {
      for i := 0 to maxLen
        invariant forall h :: 0 <= h < i ==> cells[h] == Digit(decomp, h, j + 1)
        invariant forall h :: i <= h < maxLen ==> cells[h] == Digit(decomp, h, j)
      {
        CellFits(decomp, i, j);
        cells[i] := (cells[i] + (Bit(decomp[j], i) * Pow2(j)) % 256) % 256;
      }
    }
    digits := cells[..];
  }

  lemma CellFits(parts: seq<nat>, i: nat, j: nat)
    requires j < |parts| <= 8
    ensures (Digit(parts, i, j) + (Bit(parts[j], i) * Pow2(j)) % 256) % 256 == Digit(parts, i, j + 1)
  {
    Pow2Monotone(j + 1, 8);
    assert Pow2(8) == 256;
  }

  lemma {:induction false} MaxIsBound(parts: seq<nat>, j: nat, m: nat)
    requires j < m <= |parts|
    ensures BitLen(parts[j]) <= Max(parts, m)
  {
    if j < m - 1 {
      MaxIsBound(parts, j, m - 1);
    }
  }
}
