/** The six-limb "no carry" Montgomery multiplication. One word of x is folded in
    per round; each round also adds the multiple of q that clears the low word. */
module Montgomery {
  import opened Words
  import opened FieldElement
  import opened Congruence

  /** -q^(-1) mod 2^64 */
  const INP: Word := 9940570264628428797

  /** R^(-1) mod q */
  const RINV: int := 0x14fec701e8fb0ce9ed5e64273c4f538b1797ab1458a88de9343ea97914956dc87fe11274d898fafbf4d38259380b4820

  /** The number below q that stands for n/R modulo q. */
  function Redc(n: int): (z: int)
    ensures 0 <= z < Q
  {
    (n * RINV) % Q
  }

  lemma RadixInvertible()
    ensures Cong(R * RINV, 1, Q)
  {
    CongFrom(R * RINV, 1, 0xceb06106feaafc9468b316fee268cf5819ecca0e8eb2db4c16ef2ef0c8e30b48286adb92d9d113e889f3fffcfffcfffd, Q);
  }

  /** R*z = n determines a reduced z. */
  lemma RedcUnique(z: int, n: int)
    requires 0 <= z < Q && Cong(R * z, n, Q)
    ensures z == Redc(n)
  {
    RadixInvertible();
    Undone(Q, R, RINV, z, n);
    CongMod(n * RINV, Q);
    CongSym((n * RINV) % Q, n * RINV, Q);
    CongTrans(z, n * RINV, (n * RINV) % Q, Q);
    CongReduced(z, (n * RINV) % Q, Q);
  }

  lemma Undone(q: int, c: int, inv: int, z: int, n: int)
    requires q > 0 && Cong(c * inv, 1, q) && Cong(c * z, n, q)
    ensures Cong(z, n * inv, q)
  {
    CongUndo(z, c, inv, q);
    CongMul(c * z, n, inv, q);
    CongTrans(z, inv * (c * z), inv * n, q);
  }

  lemma RedcMeans(n: int)
    ensures Cong(R * Redc(n), n, Q)
  {
    hide Cong;
    RadixInvertible();
    CongMod(n * RINV, Q);
    Restored(Q, R, RINV, n, Redc(n));
  }

  lemma Restored(q: int, c: int, inv: int, n: int, z: int)
    requires q > 0 && Cong(c * inv, 1, q) && Cong(z, n * inv, q)
    ensures Cong(c * z, n, q)
  {
    hide Cong;
    CongMul(z, n * inv, c, q);
    CongMul(c * inv, 1, n, q);
    assert c * (n * inv) == (c * inv) * n;
    CongTrans(c * z, c * (n * inv), 1 * n, q);
  }

  /** R may be cancelled. */
  lemma RadixCancels(a: int, b: int)
    requires Cong(R * a, R * b, Q)
    ensures Cong(a, b, Q)
  {
    hide Cong;
    RadixInvertible();
    CongCancel(a, b, R, RINV, Q);
  }

  /** Congruent numbers reduce alike. */
  lemma RedcCong(m: int, n: int)
    requires Cong(m, n, Q)
    ensures Redc(m) == Redc(n)
  {
    CongMul(m, n, RINV, Q);
    CongMod(m * RINV, Q);
    CongMod(n * RINV, Q);
    CongSym((n * RINV) % Q, n * RINV, Q);
    CongTrans((m * RINV) % Q, m * RINV, n * RINV, Q);
    CongTrans((m * RINV) % Q, n * RINV, (n * RINV) % Q, Q);
    CongReduced(Redc(m), Redc(n), Q);
  }

  /** Two words, and what the upper one lost, hold p + c + d + e * 2^64. */
  ghost predicate Column(lost: int, hi: int, lo: int, p: int, c: int, d: int, e: int)
  {
    (hi + lost * W) * W + lo == p + c + d + e * W
  }

  /** A product that can be kept folded: rounds are linear in it. */
  function Product(a: int, b: int): (p: int)
  {
    a * b
  }

  /** madd0: only the high word of a*b + c is returned. */
  method Madd0(a: Word, b: Word, c: Word) returns (hi: Word, ghost lo: Word)
    ensures Column(0, hi, lo, Product(a, b), c, 0, 0)
  {
    var h, l := Mul64(a, b);
    var carry;
    lo, carry := Add64(l, c, 0);
    var over;
    hi, over := Add64(h, 0, carry);
  }

  method Madd1(a: Word, b: Word, c: Word) returns (hi: Word, lo: Word)
    ensures Column(0, hi, lo, Product(a, b), c, 0, 0)
  {
    var h, l := Mul64(a, b);
    var carry, over;
    lo, carry := Add64(l, c, 0);
    hi, over := Add64(h, 0, carry);
  }

  method Madd2(a: Word, b: Word, c: Word, d: Word) returns (hi: Word, lo: Word)
    ensures Column(0, hi, lo, Product(a, b), c, d, 0)
  {
    var h, l := Mul64(a, b);
    ProductBound(a, b, W - 1);
    var s, carry := Add64(c, d, 0);
    var h1, over1 := Add64(h, 0, carry);
    var carry2, over2;
    lo, carry2 := Add64(l, s, 0);
    hi, over2 := Add64(h1, 0, carry2);
  }

  /** madd3 adds e to the high word; `lost` is the carry out that the source drops. */
  method Madd3(a: Word, b: Word, c: Word, d: Word, e: Word) returns (hi: Word, lo: Word, ghost lost: Word)
    ensures Column(lost, hi, lo, Product(a, b), c, d, e)
  {
    var h, l := Mul64(a, b);
    ProductBound(a, b, W - 1);
    var s, carry := Add64(c, d, 0);
    var h1, over1 := Add64(h, 0, carry);
    var carry2, over2;
    lo, carry2 := Add64(l, s, 0);
    hi, over2 := Add64(h1, e, carry2);
    lost := over2;
  }

  /** Nothing is dropped exactly when the sum fits in two words. */
  lemma LostIff(lost: int, hi: Word, lo: Word, p: int, c: Word, d: Word, e: Word)
    requires 0 <= lost && Column(lost, hi, lo, p, c, d, e)
    ensures lost == 0 <==> p + c + d + e * W < W * W
  {
  }

  /** m = c * INP mod 2^64 makes c + m*q divisible by 2^64. */
  lemma LowWordClears(c: Word, m: Word, k: int, hi: Word, lo: Word)
    requires m + k * W == c * INP
    requires Column(0, hi, lo, Product(m, Q0), c, 0, 0)
    ensures lo == 0
  {
    var w := 7222293901829252101;
    assert INP * Q0 == w * W - 1;
    assert m * Q0 + c == W * (c * w - k * Q0);
    SplitLow(lo, hi, 0, c * w - k * Q0);
  }

  lemma DistributeLimbs(v: int, y0: Word, y1: Word, y2: Word, y3: Word, y4: Word, y5: Word)
    ensures Product(v, Num(y0, y1, y2, y3, y4, y5))
         == Product(v, y0) + Product(v, y1) * W + Product(v, y2) * W2
          + Product(v, y3) * W3 + Product(v, y4) * W4 + Product(v, y5) * W5
  {
  }

  lemma ProductCommutes(a: int, b: int)
    ensures Product(a, b) == Product(b, a) == a * b
  {
  }

  lemma DistributeProduct(y: int, x0: Word, x1: Word, x2: Word, x3: Word, x4: Word, x5: Word)
    ensures Product(Num(x0, x1, x2, x3, x4, x5), y)
         == Product(x0, y) + Product(x1, y) * W + Product(x2, y) * W2
          + Product(x3, y) * W3 + Product(x4, y) * W4 + Product(x5, y) * W5
  {
  }

  lemma WordProduct(v: Word, y: int)
    requires y >= 0
    ensures Product(v, y) <= (W - 1) * y
  {
    MulMonotone(y, v, W - 1);
  }

  /** The products of a word and the limbs of q. */
  lemma ModulusProducts(m: int)
    ensures Product(m, Q0) + Product(m, Q1) * W + Product(m, Q2) * W2
          + Product(m, Q3) * W3 + Product(m, Q4) * W4 + Product(m, Q5) * W5 == m * Q
  {
  }

  /** One round as arithmetic: the words p_j = v*y_j and n_j = m*q_j are added to t
      column by column, the low word vanishes and the rest moves down one limb. */
  lemma RoundColumns(p0: int, p1: int, p2: int, p3: int, p4: int, p5: int,
                     n0: int, n1: int, n2: int, n3: int, n4: int, n5: int,
                     t0: Word, t1: Word, t2: Word, t3: Word, t4: Word, t5: Word,
                     a0: int, a1: int, a2: int, a3: int, a4: int, a5: int,
                     l0: int, l1: int, l2: int, l3: int, l4: int, l5: int,
                     b0: int, b1: int, b2: int, b3: int, b4: int,
                     z0: int, z1: int, z2: int, z3: int, z4: int, z5: int, lost: int)
    requires Column(0, a0, l0, p0, t0, 0, 0)
    requires Column(0, b0, 0, n0, l0, 0, 0)
    requires Column(0, a1, l1, p1, a0, t1, 0)
    requires Column(0, b1, z0, n1, b0, l1, 0)
    requires Column(0, a2, l2, p2, a1, t2, 0)
    requires Column(0, b2, z1, n2, b1, l2, 0)
    requires Column(0, a3, l3, p3, a2, t3, 0)
    requires Column(0, b3, z2, n3, b2, l3, 0)
    requires Column(0, a4, l4, p4, a3, t4, 0)
    requires Column(0, b4, z3, n4, b3, l4, 0)
    requires Column(0, a5, l5, p5, a4, t5, 0)
    requires Column(lost, z5, z4, n5, l5, b4, a5)
    ensures W * (z0 + z1 * W + z2 * W2 + z3 * W3 + z4 * W4 + (z5 + lost * W) * W5)
         == (p0 + p1 * W + p2 * W2 + p3 * W3 + p4 * W4 + p5 * W5)
          + (n0 + n1 * W + n2 * W2 + n3 * W3 + n4 * W4 + n5 * W5)
          + Num(t0, t1, t2, t3, t4, t5)
  {
  }

  /** One round. z may be t (rounds 0 to 4) or y (the last round when the caller
      aliases its operands): z[j-1] is written after t[j] and y[j] were read.
      `m` is the multiple of q that was added; no carry is lost. */
  method Round(z: array<Word>, v: Word, y: array<Word>, t: array<Word>) returns (ghost m: Word)
    requires IsFe(z) && IsFe(y) && IsFe(t)
    requires Val(y) + Q <= R && Val(t) < Val(y) + Q
    modifies z
    ensures W * Val(z) == Product(v, old(Val(y))) + m * Q + old(Val(t))
    ensures Val(z) < old(Val(y)) + Q
  {
    hide Product, Num, Column;
    var a0, l0 := Madd1(v, y[0], t[0]);
    var mm, k := MulLow(l0, INP);
    m := mm;
    var b0, zero := Madd0(mm, Q0, l0);
    LowWordClears(l0, mm, k, b0, zero);
    var a1, l1 := Madd2(v, y[1], a0, t[1]);
    var b1, b2, b3, b4;
    b1, z[0] := Madd2(mm, Q1, b0, l1);
    var a2, l2 := Madd2(v, y[2], a1, t[2]);
    b2, z[1] := Madd2(mm, Q2, b1, l2);
    var a3, l3 := Madd2(v, y[3], a2, t[3]);
    b3, z[2] := Madd2(mm, Q3, b2, l3);
    var a4, l4 := Madd2(v, y[4], a3, t[4]);
    b4, z[3] := Madd2(mm, Q4, b3, l4);
    var a5, l5 := Madd2(v, y[5], a4, t[5]);
    ghost var lost;
    z[5], z[4], lost := Madd3(mm, Q5, l5, b4, a5);
    ghost var vy := old(Val(y));
    DistributeLimbs(v, old(y[0]), old(y[1]), old(y[2]), old(y[3]), old(y[4]), old(y[5]));
    WordProduct(v, vy);
    ModulusProducts(mm);
    RoundExact(Product(v, vy), vy, mm,
               Product(v, old(y[0])), Product(v, old(y[1])), Product(v, old(y[2])),
               Product(v, old(y[3])), Product(v, old(y[4])), Product(v, old(y[5])),
               Product(mm, Q0), Product(mm, Q1), Product(mm, Q2), Product(mm, Q3), Product(mm, Q4), Product(mm, Q5),
               old(t[0]), old(t[1]), old(t[2]), old(t[3]), old(t[4]), old(t[5]),
               a0, a1, a2, a3, a4, a5, l0, l1, l2, l3, l4, l5, b0, b1, b2, b3, b4,
               z[0], z[1], z[2], z[3], z[4], z[5], lost);
  }

  /** The new number is below y + q, so the top carry is zero and the round is exact.
      The products p_j of a word and the limbs of y make up prod. */
  lemma RoundExact(prod: int, y: int, m: Word,
                   p0: int, p1: int, p2: int, p3: int, p4: int, p5: int,
                   n0: int, n1: int, n2: int, n3: int, n4: int, n5: int,
                   t0: Word, t1: Word, t2: Word, t3: Word, t4: Word, t5: Word,
                   a0: int, a1: int, a2: int, a3: int, a4: int, a5: int,
                   l0: int, l1: int, l2: int, l3: int, l4: int, l5: int,
                   b0: int, b1: int, b2: int, b3: int, b4: int,
                   z0: Word, z1: Word, z2: Word, z3: Word, z4: Word, z5: Word, lost: Word)
    requires prod == p0 + p1 * W + p2 * W2 + p3 * W3 + p4 * W4 + p5 * W5 && prod <= (W - 1) * y
    requires Column(0, a0, l0, p0, t0, 0, 0)
    requires n0 + n1 * W + n2 * W2 + n3 * W3 + n4 * W4 + n5 * W5 == m * Q
    requires Column(0, b0, 0, n0, l0, 0, 0)
    requires Column(0, a1, l1, p1, a0, t1, 0)
    requires Column(0, b1, z0, n1, b0, l1, 0)
    requires Column(0, a2, l2, p2, a1, t2, 0)
    requires Column(0, b2, z1, n2, b1, l2, 0)
    requires Column(0, a3, l3, p3, a2, t3, 0)
    requires Column(0, b3, z2, n3, b2, l3, 0)
    requires Column(0, a4, l4, p4, a3, t4, 0)
    requires Column(0, b4, z3, n4, b3, l4, 0)
    requires Column(0, a5, l5, p5, a4, t5, 0)
    requires Column(lost, z5, z4, n5, l5, b4, a5)
    requires 0 <= y <= R - Q && Num(t0, t1, t2, t3, t4, t5) < y + Q
    ensures W * Num(z0, z1, z2, z3, z4, z5) == prod + m * Q + Num(t0, t1, t2, t3, t4, t5)
    ensures Num(z0, z1, z2, z3, z4, z5) < y + Q
  {
    hide Column;
    RoundColumns(p0, p1, p2, p3, p4, p5,
                 n0, n1, n2, n3, n4, n5,
                 t0, t1, t2, t3, t4, t5, a0, a1, a2, a3, a4, a5, l0, l1, l2, l3, l4, l5,
                 b0, b1, b2, b3, b4, z0, z1, z2, z3, z4, z5, lost);
    RoundBound(prod, m, y, Num(t0, t1, t2, t3, t4, t5), Num(z0, z1, z2, z3, z4, z5), lost);
  }

  lemma RoundBound(prod: int, m: Word, y: int, t: int, z: int, lost: Word)
    requires 0 <= y && 0 <= t < y + Q <= R && 0 <= z && prod <= (W - 1) * y
    requires W * (z + lost * R) == prod + m * Q + t
    ensures lost == 0 && z < y + Q
  {
  }

  /** The Montgomery product: the reduced z with z*R = x*y. */
  function MontMul(x: int, y: int): (z: int)
    ensures 0 <= z < Q
  {
    Redc(x * y)
  }

  lemma MontMulMeans(x: int, y: int)
    ensures Cong(R * MontMul(x, y), x * y, Q)
  {
    RedcMeans(x * y);
  }

  /** z stands for x*y/R, reduced or not. */
  ghost predicate IsMontProduct(z: int, x: int, y: int)
  {
    Cong(R * z, x * y, Q)
  }

  /** Six rounds from zero: the products p_j of the words of x and the multiples of q
      add up. */
  lemma RoundsCompose(p0: int, p1: int, p2: int, p3: int, p4: int, p5: int,
                      m0: Word, m1: Word, m2: Word, m3: Word, m4: Word, m5: Word,
                      t1: int, t2: int, t3: int, t4: int, t5: int, t6: int)
    requires W * t1 == p0 + m0 * Q
    requires W * t2 == p1 + m1 * Q + t1
    requires W * t3 == p2 + m2 * Q + t2
    requires W * t4 == p3 + m3 * Q + t3
    requires W * t5 == p4 + m4 * Q + t4
    requires W * t6 == p5 + m5 * Q + t5
    ensures R * t6 == p0 + p1 * W + p2 * W2 + p3 * W3 + p4 * W4 + p5 * W5 + Num(m0, m1, m2, m3, m4, m5) * Q
  {
  }

  /** mul: z*R = x*y (mod q). Only y has to leave room for one extra q below 2^384;
      x is arbitrary, so unreduced sums may be passed for it. z may be x or y. */
  method Mul(z: array<Word>, x: array<Word>, y: array<Word>)
    requires IsFe(z) && IsFe(x) && IsFe(y) && Val(y) + Q <= R
    modifies z
    ensures IsMontProduct(Val(z), old(Val(x)), old(Val(y)))
    ensures old(Val(y)) <= Q ==> Val(z) < Q && Val(z) == MontMul(old(Val(x)), old(Val(y)))
  {
    hide Product;
    var t: array<Word> := new Word[6](_ => 0);
    var m0 := Round(t, x[0], y, t);
    ghost var t1 := Val(t);
    var m1 := Round(t, x[1], y, t);
    ghost var t2 := Val(t);
    var m2 := Round(t, x[2], y, t);
    ghost var t3 := Val(t);
    var m3 := Round(t, x[3], y, t);
    ghost var t4 := Val(t);
    var m4 := Round(t, x[4], y, t);
    ghost var t5 := Val(t);
    ghost var vx, vy := Val(x), Val(y);
    ghost var x0, x1, x2, x3, x4, x5 := x[0], x[1], x[2], x[3], x[4], x[5];
    var m5 := Round(z, x[5], y, t);
    DistributeProduct(vy, x0, x1, x2, x3, x4, x5);
    RoundsCompose(Product(x0, vy), Product(x1, vy), Product(x2, vy), Product(x3, vy), Product(x4, vy), Product(x5, vy),
                  m0, m1, m2, m3, m4, m5, t1, t2, t3, t4, t5, Val(z));
    ProductCommutes(vx, vy);
    ghost var t6 := Val(z);
    CongFrom(R * t6, vx * vy, Num(m0, m1, m2, m3, m4, m5), Q);
    ReduceOnce(z);
    if Val(z) != t6 {
      CongFrom(R * Val(z), R * t6, -R, Q);
      CongTrans(R * Val(z), R * t6, vx * vy, Q);
    }
    if vy <= Q {
      RedcUnique(Val(z), vx * vy);
    }
  }
}
