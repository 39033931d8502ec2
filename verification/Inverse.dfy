/** The Kaliski "almost Montgomery inverse" of fp.go, on limbs. */
module Inverse {
  import opened Words
  import opened FieldElement
  import opened Congruence
  import opened Powers

  /** Phase 1 is correct for every odd modulus. */
  type Modulus = q: int | q >= 3 && q % 2 == 1 witness 3

  /** After k steps of phase 1 from (q, e, 1, 0), with p = 2^k:
      e*r = -u*p and e*s = v*p modulo q. */
  ghost predicate Related(q: Modulus, e: int, u: int, v: int, s: int, r: int, p: int)
  {
    Cong(e * r, -(u * p), q) && Cong(e * s, v * p, q)
  }

  ghost predicate Splits(q: Modulus, u: int, v: int, s: int, r: int)
  {
    && u >= 1 && v >= 0 && s >= 1 && r >= 0
    && u * s + v * r == q
    && (r > 0 || u == q)
    && (v == 0 ==> r % 2 == 0 && r < 2 * q)
  }

  /** u + v loses at most half of itself in a step, u * v at least half. */
  ghost predicate Shrinks(q: Modulus, e: int, u: int, v: int, p: int)
  {
    && q + e <= p * (u + v)
    && (v > 0 ==> p * (u * v) <= q * e)
    && (v == 0 ==> p <= 2 * (q * e))
  }

  ghost predicate Divides(d: int, x: int)
    requires d > 0
  {
    Cong(x, 0, d)
  }

  /** u and v have the same common divisors as q and e. */
  ghost predicate Shares(q: Modulus, e: int, u: int, v: int)
  {
    forall d: int :: d > 0 ==> (Divides(d, u) && Divides(d, v) <==> Divides(d, q) && Divides(d, e))
  }

  ghost predicate Coprime(q: Modulus, e: int)
  {
    forall d: int :: d > 0 && Divides(d, q) && Divides(d, e) ==> d == 1
  }

  /** u divides q and e, and every common divisor of them divides u. */
  ghost predicate IsGcd(q: Modulus, e: int, u: int)
  {
    u > 0 && Divides(u, q) && Divides(u, e) && forall d: int :: d > 0 && Divides(d, q) && Divides(d, e) ==> Divides(d, u)
  }

  ghost predicate Kept(q: Modulus, e: int, u: int, v: int, s: int, r: int, p: int)
  {
    && Splits(q, u, v, s, r) && Related(q, e, u, v, s, r, p) && Shrinks(q, e, u, v, p)
    && Shares(q, e, u, v)
  }

  lemma DividesSum(d: int, x: int, y: int, b: int)
    requires d > 0 && Divides(d, x) && Divides(d, y)
    ensures Divides(d, 2 * x + b * y)
  {
    hide Cong;
    CongMul(x, 0, 2, d);
    CongMul(y, 0, b, d);
    CongAdd(2 * x, 2 * 0, b * y, b * 0, d);
  }

  lemma DividesDifference(d: int, x: int, y: int, b: int)
    requires d > 0 && Divides(d, x) && Divides(d, y)
    ensures Divides(d, x - b * y)
  {
    hide Cong;
    CongMul(y, 0, b, d);
    CongAdd(x, 0, b * y, b * 0, d);
  }

  /** An odd divisor of 2h divides h. */
  lemma DividesHalf(d: int, h: int)
    requires d > 0 && d % 2 == 1 && Divides(d, 2 * h)
    ensures Divides(d, h)
  {
    var half := (d + 1) / 2;
    CongFrom(2 * half, 1, 1, d);
    hide Cong;
    CongCancel(h, 0, 2, half, d);
  }

  /** Divisors of an odd number are odd. */
  lemma OddDivisor(q: Modulus, d: int)
    requires d > 0 && Divides(d, q)
    ensures d % 2 == 1
  {
    var k := Quotient(q, 0, d);
    EvenTimes(k, d);
  }

  lemma EvenTimes(k: int, d: int)
    ensures d % 2 == 0 ==> (k * d) % 2 == 0
  {
    assert d % 2 == 0 ==> k * d == 2 * (k * (d / 2));
  }

  /** Subtracting and halving keeps the common divisors; all of them are odd. */
  lemma SharesStep(q: Modulus, e: int, h: int, v: int, b: int)
    requires Shares(q, e, 2 * h + b * v, v)
    ensures Shares(q, e, h, v)
  {
    hide Cong, Divides;
    forall d: int | d > 0
      ensures Divides(d, h) && Divides(d, v) <==> Divides(d, q) && Divides(d, e)
    {
      if Divides(d, h) && Divides(d, v) {
        DividesSum(d, h, v, b);
      } else if Divides(d, q) && Divides(d, e) {
        OddDivisor(q, d);
        DividesDifference(d, 2 * h + b * v, v, b);
        DividesHalf(d, h);
      }
    }
  }

  lemma SharesSwapped(q: Modulus, e: int, u: int, v: int)
    requires Shares(q, e, u, v)
    ensures Shares(q, e, v, u)
  {
    hide Divides;
  }

  /** When v is zero, u is the greatest common divisor. */
  lemma SharesEnd(q: Modulus, e: int, u: int)
    requires u > 0 && Shares(q, e, u, 0)
    ensures IsGcd(q, e, u) && (Coprime(q, e) ==> u == 1)
  {
    CongRefl(0, u);
    CongFrom(u, 0, 1, u);
    hide Cong;
    assert Divides(u, u) && Divides(u, 0);
    forall d: int | d > 0 && Divides(d, q) && Divides(d, e)
      ensures Divides(d, u)
    {
    }
  }

  lemma KeptAtStart(q: Modulus, e: int)
    requires 0 < e < q
    ensures Kept(q, e, q, e, 1, 0, 1)
  {
    CongFrom(e * 0, -(q * 1), 1, q);
    CongRefl(e, q);
    assert Shares(q, e, q, e) by { hide Divides; }
  }

  /** The identity behind both kinds of step, in the cofactor that is doubled (s)
      and the one that absorbs it (r + b*s). */
  lemma SplitStep(h: int, v: int, s: int, r: int, b: int)
    ensures h * (2 * s) + v * (r + b * s) == (2 * h + b * v) * s + v * r
  {
  }

  lemma Absorb(e: int, r: int, s: int, b: int)
    ensures e * r + b * (e * s) == e * (r + b * s)
  {
  }

  lemma Cancel(h: int, v: int, b: int, p: int)
    ensures (2 * h + b * v) * p - b * (v * p) == h * (2 * p)
    ensures (2 * h + b * v) * p + b * (-(v * p)) == h * (2 * p)
  {
  }

  lemma Twice(x: int, y: int)
    ensures 2 * (x * y) == x * (2 * y)
  {
  }

  lemma RelateStep(q: Modulus, e: int, h: int, v: int, s: int, r: int, b: int, p: int)
    requires Cong(e * r, -((2 * h + b * v) * p), q) && Cong(e * s, v * p, q)
    ensures Cong(e * (r + b * s), -(h * (2 * p)), q) && Cong(e * (2 * s), v * (2 * p), q)
  {
    hide Cong;
    CongMul(e * s, v * p, b, q);
    CongAdd(e * r, -((2 * h + b * v) * p), b * (e * s), b * (v * p), q);
    Absorb(e, r, s, b);
    Cancel(h, v, b, p);
    CongMul(e * s, v * p, 2, q);
    Twice(e, s);
    Twice(v, p);
  }

  /** The mirror image, for a step that halves v. */
  lemma RelateStepV(q: Modulus, e: int, u: int, h: int, s: int, r: int, b: int, p: int)
    requires Cong(e * r, -(u * p), q) && Cong(e * s, (2 * h + b * u) * p, q)
    ensures Cong(e * (2 * r), -(u * (2 * p)), q) && Cong(e * (s + b * r), h * (2 * p), q)
  {
    hide Cong;
    CongMul(e * r, -(u * p), b, q);
    CongAdd(e * s, (2 * h + b * u) * p, b * (e * r), b * (-(u * p)), q);
    Absorb(e, s, r, b);
    Cancel(h, u, b, p);
    CongMul(e * r, -(u * p), 2, q);
    Twice(e, r);
    Twice(u, p);
  }

  /** Halving x = 2*h + b*y keeps the sum above half and the product below half. */
  lemma ShrinkStep(h: int, y: int, b: int, p: int)
    requires h >= 0 && y >= 0 && p >= 1 && 0 <= b <= 1
    ensures (2 * p) * (h + y) >= p * (2 * h + b * y + y)
    ensures (2 * p) * (h * y) <= p * ((2 * h + b * y) * y)
  {
    assert (2 * p) * (h + y) == p * (2 * h + 2 * y);
    MulMonotone(p, 2 * h + b * y + y, 2 * h + 2 * y);
    assert (2 * p) * (h * y) == p * (2 * (h * y));
    assert (2 * h + b * y) * y == 2 * (h * y) + b * (y * y);
    assert b * (y * y) >= 0;
    assert 0 <= h * y;
    MulMonotone(p, 2 * (h * y), (2 * h + b * y) * y);
  }

  /** A step that halves u: b is 0 when u was even and 1 when v was subtracted first. */
  lemma StepU(q: Modulus, e: int, h: int, v: int, s: int, r: int, b: int, p: int)
    requires Kept(q, e, 2 * h + b * v, v, s, r, p)
    requires h >= 1 && v >= 1 && 0 <= b <= 1 && p >= 1 && 0 < e
    ensures Kept(q, e, h, v, 2 * s, r + b * s, 2 * p)
  {
    var u := 2 * h + b * v;
    SplitStep(h, v, s, r, b);
    assert Splits(q, h, v, 2 * s, r + b * s) by {
      assert 2 * h != q;
      assert b * s >= 0;
      assert b == 1 ==> b * s >= 1;
    }
    assert Related(q, e, h, v, 2 * s, r + b * s, 2 * p) by { RelateStep(q, e, h, v, s, r, b, p); }
    assert Shrinks(q, e, h, v, 2 * p) by { ShrinkStep(h, v, b, p); }
    SharesStep(q, e, h, v, b);
  }

  /** A step that halves v; it may reach 0, from u == v. */
  lemma StepV(q: Modulus, e: int, u: int, h: int, s: int, r: int, b: int, p: int)
    requires Kept(q, e, u, 2 * h + b * u, s, r, p)
    requires h >= 0 && u >= 1 && 0 <= b <= 1 && p >= 1 && 2 * h + b * u >= 1 && 0 < e
    ensures Kept(q, e, u, h, s + b * r, 2 * r, 2 * p)
  {
    var v := 2 * h + b * u;
    SplitStep(h, u, r, s, b);
    assert Splits(q, u, h, s + b * r, 2 * r) by {
      MulMonotone(r, 1, v);
      MulMonotone(u, 1, s);
      assert b * r >= 0;
    }
    assert Related(q, e, u, h, s + b * r, 2 * r, 2 * p) by { RelateStepV(q, e, u, h, s, r, b, p); }
    assert Shrinks(q, e, u, h, 2 * p) by {
      ShrinkStep(h, u, b, p);
      MulMonotone(u, 1, v);
      MulMonotone(p, 1, u * v);
    }
    SharesSwapped(q, e, u, v);
    SharesStep(q, e, h, u, b);
    SharesSwapped(q, e, h, u);
  }

  /** Neither s, r nor their sum can pass q while v is positive. */
  lemma CofactorBound(q: Modulus, e: int, u: int, v: int, s: int, r: int, p: int)
    requires Kept(q, e, u, v, s, r, p) && v >= 1
    ensures 1 <= s && 0 <= r && s + r <= q && 1 <= u <= q
  {
    MulMonotone(s, 1, u);
    MulMonotone(r, 1, v);
    MulMonotone(u, 1, s);
  }

  lemma EndBound(q: Modulus, u: int, s: int, r: int)
    requires Splits(q, u, 0, s, r)
    ensures s <= q && u <= q && r < 2 * q
  {
    MulMonotone(s, 1, u);
    MulMonotone(u, 1, s);
  }

  /** The bit length of q fixes how many steps phase 1 can take. */
  ghost predicate HasBits(q: Modulus, n: nat)
  {
    n >= 1 && Pow2(n - 1) < q < Pow2(n)
  }

  lemma PowerBounds(q: Modulus, n: nat, k: nat)
    requires HasBits(q, n)
    ensures k < n ==> Pow2(k) < q
    ensures k > 2 * n ==> Pow2(k) > 2 * (q * q)
  {
    if k < n {
      Pow2Monotone(k, n - 1);
    } else if k > 2 * n {
      Pow2Monotone(2 * n + 1, k);
      Pow2Add(n, n);
      assert Pow2(2 * n + 1) == 2 * Pow2(n + n);
      MulMonotone(q, q, Pow2(n));
      MulMonotone(Pow2(n), q + 1, Pow2(n));
    }
  }

  lemma ModulusBits(n: nat)
    requires n == 381
    ensures HasBits(Q, n)
  {
    var word: nat, radix: nat := 64, 384;
    Pow2Radix(word, radix);
    var three: nat := 3;
    Pow2Add(n, three);
    assert Pow2(three) == 8;
    assert Pow2(n) == 2 * Pow2(n - 1);
  }

  /** The product u*v halves at least, so 2^k cannot pass 2*q^2. */
  lemma StepLimit(q: Modulus, e: int, u: int, v: int, s: int, r: int, p: int)
    requires 0 < e < q && p >= 1 && Kept(q, e, u, v, s, r, p)
    ensures p <= 2 * (q * q)
  {
    hide Cong;
    MulMonotone(q, e, q);
    if v > 0 {
      MulMonotone(u, 1, v);
      MulMonotone(p, 1, u * v);
    }
  }

  ghost predicate IsInverse(q: Modulus, e: int, f: int) { Cong(e * f, 1, q) }

  ghost predicate Invertible(q: Modulus, e: int) { exists f :: IsInverse(q, e, f) }

  /** Phase 1 ends with the greatest common divisor, which is 1 for coprime e. */
  lemma StopsAtGcd(q: Modulus, e: int, u: int, s: int, r: int, p: int)
    requires Kept(q, e, u, 0, s, r, p)
    ensures IsGcd(q, e, u) && (Coprime(q, e) ==> u == 1)
  {
    hide Shares, Related, Shrinks;
    SharesEnd(q, e, u);
  }

  /** Two is invertible modulo an odd number, so whatever goes into a power of two is. */
  lemma {:induction false} PowerGivesInverse(q: Modulus, e: int, w: int, k: nat)
    requires Cong(e * w, Pow2(k), q)
    ensures Invertible(q, e)
    decreases k
  {
    if k == 0 {
      assert IsInverse(q, e, w);
    } else {
      var half := (q + 1) / 2;
      HalveWith(q, e, w, half, Pow2(k - 1));
      PowerGivesInverse(q, e, w * half, k - 1);
    }
  }

  lemma HalveWith(q: Modulus, e: int, w: int, half: int, p: int)
    requires Cong(e * w, 2 * p, q) && half == (q + 1) / 2
    ensures Cong(e * (w * half), p, q)
  {
    CongFrom(2 * half, 1, 1, q);
    hide Cong;
    CongMul(e * w, 2 * p, half, q);
    CongMul(2 * half, 1, p, q);
    HalvePower(e, w, half, p);
    CongTrans(e * (w * half), (2 * p) * half, p, q);
  }

  lemma HalvePower(e: int, w: int, half: int, p: int)
    ensures (e * w) * half == e * (w * half) && (2 * p) * half == p * (2 * half)
  {
  }

  /** Only elements coprime to q have inverses. */
  lemma InverseIsCoprime(q: Modulus, e: int, f: int)
    requires IsInverse(q, e, f)
    ensures Coprime(q, e)
  {
    var k := Quotient(e * f, 1, q);
    forall d: int | d > 0 && Divides(d, q) && Divides(d, e)
      ensures d == 1
    {
      var a := Quotient(q, 0, d);
      var b := Quotient(e, 0, d);
      assert d * (b * f - k * a) == 1 by { Gather(d, a, b, f, k); }
      if d > 1 {
        UnitOnly(d, b * f - k * a);
      }
    }
  }

  lemma Gather(d: int, a: int, b: int, f: int, k: int)
    ensures d * (b * f - k * a) == (b * d) * f - k * (a * d)
  {
  }

  lemma UnitOnly(d: int, x: int)
    requires d > 1
    ensures d * x != 1
  {
    assert x >= 1 ==> d * x >= d;
    assert x <= 0 ==> d * x <= 0;
  }

  /** The sum u+v halves at most, so 2^k has passed q when u + v is 1. */
  lemma StepFloor(q: Modulus, e: int, s: int, r: int, p: int)
    requires 0 < e && Kept(q, e, 1, 0, s, r, p)
    ensures q < p && 0 < r < 2 * q && r != q
  {
    hide Cong;
  }

  /** The four branches of phase 1, with the bounds that keep every cofactor in 384 bits. */
  lemma HalveU(q: Modulus, e: int, u: int, v: int, s: int, r: int, p: int)
    requires Kept(q, e, u, v, s, r, p) && v >= 1 && p >= 1 && 0 < e && u % 2 == 0
    ensures Kept(q, e, u / 2, v, 2 * s, r, 2 * p) && 2 * s <= q
  {
    hide Kept;
    CofactorBound(q, e, u, v, s, r, p);
    StepU(q, e, u / 2, v, s, r, 0, p);
    CofactorBound(q, e, u / 2, v, 2 * s, r, 2 * p);
  }

  lemma HalveV(q: Modulus, e: int, u: int, v: int, s: int, r: int, p: int)
    requires Kept(q, e, u, v, s, r, p) && v >= 1 && p >= 1 && 0 < e && v % 2 == 0
    ensures Kept(q, e, u, v / 2, s, 2 * r, 2 * p) && 2 * r <= 2 * q
  {
    hide Kept;
    CofactorBound(q, e, u, v, s, r, p);
    StepV(q, e, u, v / 2, s, r, 0, p);
  }

  lemma SubtractFromU(q: Modulus, e: int, u: int, v: int, s: int, r: int, p: int)
    requires Kept(q, e, u, v, s, r, p) && v >= 1 && p >= 1 && 0 < e && u % 2 == 1 && v % 2 == 1 && u > v
    ensures Kept(q, e, (u - v) / 2, v, 2 * s, r + s, 2 * p) && 2 * s <= q && r + s <= q
  {
    hide Kept;
    CofactorBound(q, e, u, v, s, r, p);
    var h := (u - v) / 2;
    assert 2 * h + 1 * v == u;
    StepU(q, e, h, v, s, r, 1, p);
    CofactorBound(q, e, h, v, 2 * s, r + s, 2 * p);
  }

  lemma SubtractFromV(q: Modulus, e: int, u: int, v: int, s: int, r: int, p: int)
    requires Kept(q, e, u, v, s, r, p) && v >= 1 && p >= 1 && 0 < e && u % 2 == 1 && v % 2 == 1 && u <= v
    ensures Kept(q, e, u, (v - u) / 2, s + r, 2 * r, 2 * p) && s + r <= q && 2 * r <= 2 * q
  {
    hide Kept;
    CofactorBound(q, e, u, v, s, r, p);
    var h := (v - u) / 2;
    assert 2 * h + 1 * u == v;
    StepV(q, e, u, h, s, r, 1, p);
  }

  /** One iteration of phase 1; `z` is the carry out of r, which the caller sums up. */
  method PhaseOneStep(u: array<Word>, v: array<Word>, s: array<Word>, r: array<Word>, ghost q: Modulus, ghost e: int, ghost p: int)
    returns (z: Word)
    requires IsFe(u) && IsFe(v) && IsFe(s) && IsFe(r)
    requires u != v && u != s && u != r && v != s && v != r && s != r
    requires p >= 1 && 0 < e && Val(v) > 0 && 2 * q < R
    requires Kept(q, e, Val(u), Val(v), Val(s), Val(r), p)
    modifies u, v, s, r
    ensures Kept(q, e, Val(u), Val(v), Val(s), Val(r), 2 * p)
    ensures z == 0
  {
    hide Kept, Val, Num;
    z := 0;
    if IsEven(u) {
      HalveU(q, e, Val(u), Val(v), Val(s), Val(r), p);
      Div2(u, 0);
      var _ := Mul2(s);
    } else if IsEven(v) {
      HalveV(q, e, Val(u), Val(v), Val(s), Val(r), p);
      Div2(v, 0);
      z := Mul2(r);
    } else {
      var c := Cmp(u, v);
      if c == 1 {
        SubtractFromU(q, e, Val(u), Val(v), Val(s), Val(r), p);
        LSubAssign(u, v);
        Div2(u, 0);
        LAdd(r, r, s);
        var _ := Mul2(s);
      } else {
        SubtractFromV(q, e, Val(u), Val(v), Val(s), Val(r), p);
        LSubAssign(v, u);
        Div2(v, 0);
        LAdd(s, s, r);
        z := Mul2(r);
      }
    }
  }

  /** What phase 2 starts from: e*(-r) = 2^k modulo q. */
  lemma PhaseOneResult(q: Modulus, e: int, s: int, r: int, p: int, w: int)
    requires Kept(q, e, 1, 0, s, r, p)
    requires w == q - r || w == 2 * q - r
    ensures Cong(e * w, p, q)
  {
    assert 1 * p == p;
    NegateResidue(q, e, r, p, w);
  }

  lemma NegateResidue(q: Modulus, e: int, r: int, p: int, w: int)
    requires Cong(e * r, -p, q)
    requires w == q - r || w == 2 * q - r
    ensures Cong(e * w, p, q)
  {
    hide Cong;
    var c := if w == q - r then 1 else 2;
    CongFrom(e * (c * q), 0, e * c, q);
    CongAdd(e * (c * q), 0, e * r, -p, q);
    assert e * (c * q) - e * r == e * w;
  }

  lemma DoubleResidue(q: Modulus, e: int, w: int, p: int, x: int)
    requires Cong(e * w, p, q)
    requires x == 2 * w || x == 2 * w - q
    ensures Cong(e * x, 2 * p, q)
  {
    hide Cong;
    CongFrom(x, 2 * w, if x == 2 * w then 0 else -1, q);
    CongMul(x, 2 * w, e, q);
    CongMul(e * w, p, 2, q);
    Twice(e, w);
    CongTrans(e * x, e * (2 * w), 2 * p, q);
  }

  lemma ZeroNotCoprime(q: Modulus)
    ensures !Coprime(q, 0)
  {
    CongFrom(q, 0, 1, q);
    CongRefl(0, q);
    assert Divides(q, q) && Divides(q, 0);
  }

  /** At most twice the bit length of q steps; at least the bit length for coprime e. */
  lemma StepCount(q: Modulus, n: nat, e: int, u: int, v: int, s: int, r: int, k: nat)
    requires 0 < e < q && HasBits(q, n) && Kept(q, e, u, v, s, r, Pow2(k))
    ensures k <= 2 * n
    ensures v == 0 && Coprime(q, e) ==> k >= n
  {
    hide Kept, HasBits, Coprime;
    StepLimit(q, e, u, v, s, r, Pow2(k));
    PowerBounds(q, n, k);
    if v == 0 && Coprime(q, e) {
      StopsAtGcd(q, e, u, s, r, Pow2(k));
      StepFloor(q, e, s, r, Pow2(k));
    }
  }

  /** Phase 1: the loop of at most 768 steps always finds v == 0 within 762. */
  method PhaseOne(u: array<Word>, v: array<Word>, s: array<Word>, r: array<Word>)
    returns (found: bool, k: nat, z: Word)
    requires IsFe(u) && IsFe(v) && IsFe(s) && IsFe(r)
    requires u != v && u != s && u != r && v != s && v != r && s != r
    requires Val(u) == Q && 0 < Val(v) < Q && Val(s) == 1 && Val(r) == 0
    modifies u, v, s, r
    ensures found && z == 0 && k <= 762
    ensures Kept(Q, old(Val(v)), Val(u), 0, Val(s), Val(r), Pow2(k))
  {
    hide Kept, Val, Num;
    ghost var e := Val(v);
    ghost var n: nat := 381;
    ModulusBits(n);
    hide HasBits;
    KeptAtStart(Q, e);
    k, z, found := 0, 0, false;
    assert Pow2(k) == 1;
    var i := 0;
    while i < 768
      invariant 0 <= i <= 768 && k == i && z == 0 && !found
      invariant Kept(Q, e, Val(u), Val(v), Val(s), Val(r), Pow2(k))
    {
      StepCount(Q, n, e, Val(u), Val(v), Val(s), Val(r), k);
      if IsZero(v) {
        found := true;
        break;
      }
      var c := PhaseOneStep(u, v, s, r, Q, e, Pow2(k));
      z := z + c;
      assert 2 * Pow2(k) == Pow2(k + 1);
      k := k + 1;
      i := i + 1;
    }
    StepCount(Q, n, e, Val(u), Val(v), Val(s), Val(r), k);
  }

  /** Phase 2: 768 - k modular doublings. */
  method PhaseTwo(u: array<Word>, k: nat, ghost e: int)
    requires IsFe(u) && Val(u) <= Q && k <= 768
    modifies u
    ensures old(Val(u)) < Q ==> Val(u) < Q
    ensures Cong(e * old(Val(u)), Pow2(k), Q) ==> Cong(e * Val(u), R * R, Q)
  {
    hide Val, Num, Cong;
    var i := k;
    while i < 768
      invariant k <= i <= 768 && Val(u) <= Q
      invariant old(Val(u)) < Q ==> Val(u) < Q
      invariant Cong(e * old(Val(u)), Pow2(k), Q) ==> Cong(e * Val(u), Pow2(i), Q)
    {
      ghost var w := Val(u);
      Double(u, u);
      if Cong(e * w, Pow2(i), Q) {
        DoubleResidue(Q, e, w, Pow2(i), Val(u));
      }
      assert 2 * Pow2(i) == Pow2(i + 1);
      i := i + 1;
    }
    Pow2Squared(i);
  }

  lemma Pow2Squared(i: nat)
    requires i == 768
    ensures Pow2(i) == R * R
  {
    var word: nat, radix: nat := 64, 384;
    Pow2Radix(word, radix);
    Pow2Double(radix, R);
  }

  /** The initial limbs of modulus, 1 and 0. */
  method FromLimbs(a0: Word, a1: Word, a2: Word, a3: Word, a4: Word, a5: Word) returns (a: array<Word>)
    ensures fresh(a) && IsFe(a) && Val(a) == Num(a0, a1, a2, a3, a4, a5)
  {
    a := new Word[6] [a0, a1, a2, a3, a4, a5];
  }

  /** inverse: for e coprime to q the result is e^(-1) * 2^768, that is, the
      Montgomery form of the inverse of the element e stands for. inv may be e. */
  method Invert(inv: array<Word>, e: array<Word>)
    requires IsFe(inv) && IsFe(e) && Val(e) < Q
    modifies inv
    ensures old(Val(e)) == 0 ==> Val(inv) == 0
    ensures Coprime(Q, old(Val(e))) ==>
              Invertible(Q, old(Val(e))) && Val(inv) < Q && Cong(old(Val(e)) * Val(inv), R * R, Q)
  {
    hide Kept, Val, Num, Cong, Coprime, Invertible;
    ghost var ve := Val(e);
    if IsZero(e) {
      Zero(inv);
      ZeroNotCoprime(Q);
      return;
    }
    ModulusLimbs();
    var modulus := FromLimbs(Q0, Q1, Q2, Q3, Q4, Q5);
    var u := FromLimbs(Q0, Q1, Q2, Q3, Q4, Q5);
    var v := FromLimbs(0, 0, 0, 0, 0, 0);
    Set(v, e);
    SmallLimbs();
    var s := FromLimbs(1, 0, 0, 0, 0, 0);
    var r := FromLimbs(0, 0, 0, 0, 0, 0);
    var found, k, z := PhaseOne(u, v, s, r);
    ghost var n: nat := 381;
    ModulusBits(n);
    hide HasBits;
    ghost var w := Residue(Q, n, ve, Val(u), Val(s), Val(r), k);
    if !found || k < 381 || k > 381 + 384 {
      Zero(inv);
      return;
    }
    var c := Cmp(r, modulus);
    if c != -1 || z > 0 {
      LSubAssign(r, modulus);
    }
    Set(u, modulus);
    LSubAssign(u, r);
    assert Val(u) == w;
    PhaseTwo(u, k, ve);
    Set(inv, u);
  }

  lemma SmallLimbs()
    ensures Num(1, 0, 0, 0, 0, 0) == 1 && Num(0, 0, 0, 0, 0, 0) == 0
  {
  }

  /** What phase 1 hands to phase 2: for coprime e, w = q - r (or 2q - r) is the one
      reduced number with e*w = 2^k. */
  lemma Residue(q: Modulus, n: nat, e: int, u: int, s: int, r: int, k: nat) returns (w: int)
    requires 0 < e < q && HasBits(q, n) && Kept(q, e, u, 0, s, r, Pow2(k))
    ensures r < 2 * q && w == (if r < q then q - r else 2 * q - r)
    ensures Coprime(q, e) ==> k >= n && 0 < w < q && Cong(e * w, Pow2(k), q) && Invertible(q, e)
    ensures Coprime(q, e) ==> forall x :: 0 <= x < q && Cong(e * x, Pow2(k), q) ==> x == w
  {
    hide Cong, Related, Shrinks, Shares, HasBits, Coprime, Invertible;
    w := if r < q then q - r else 2 * q - r;
    EndBound(q, u, s, r);
    if Coprime(q, e) {
      StopsAtGcd(q, e, u, s, r, Pow2(k));
      StepFloor(q, e, s, r, Pow2(k));
      PowerBounds(q, n, k);
      PhaseOneResult(q, e, s, r, Pow2(k), w);
      PowerGivesInverse(q, e, w, k);
      forall x | 0 <= x < q && Cong(e * x, Pow2(k), q)
        ensures x == w
      {
        CongSym(e * w, Pow2(k), q);
        CongTrans(e * x, Pow2(k), e * w, q);
        OneQuotient(q, e, x, w);
      }
    }
  }

  /** An invertible element can be cancelled. */
  lemma OneQuotient(q: Modulus, e: int, x: int, w: int)
    requires Invertible(q, e) && Cong(e * x, e * w, q) && 0 <= x < q && 0 <= w < q
    ensures x == w
  {
    hide Cong;
    var f :| IsInverse(q, e, f);
    CongCancel(x, w, e, f, q);
    CongReduced(x, w, q);
  }

  /** Below q, the coprime elements are exactly the invertible ones. */
  lemma CoprimeIffInvertible(q: Modulus, n: nat, e: int)
    requires 0 < e < q && HasBits(q, n)
    ensures Coprime(q, e) <==> Invertible(q, e)
  {
    hide Coprime, Kept, HasBits;
    if Coprime(q, e) {
      KeptAtStart(q, e);
      assert Pow2(0) == 1;
      CoprimeReaches(q, n, e, q, e, 1, 0, 0);
    }
    if Invertible(q, e) {
      var f :| IsInverse(q, e, f);
      InverseIsCoprime(q, e, f);
    }
  }

  /** Phase 1 on numbers: it stops, because u + v shrinks. */
  lemma {:induction false} CoprimeReaches(q: Modulus, n: nat, e: int, u: int, v: int, s: int, r: int, k: nat)
    requires 0 < e < q && HasBits(q, n) && Coprime(q, e) && Kept(q, e, u, v, s, r, Pow2(k)) && u >= 1 && v >= 0
    ensures Invertible(q, e)
    decreases u + v
  {
    hide Kept, HasBits, Coprime, Invertible;
    assert 2 * Pow2(k) == Pow2(k + 1);
    if v == 0 {
      var w := Residue(q, n, e, u, s, r, k);
    } else if u % 2 == 0 {
      HalveU(q, e, u, v, s, r, Pow2(k));
      CoprimeReaches(q, n, e, u / 2, v, 2 * s, r, k + 1);
    } else if v % 2 == 0 {
      HalveV(q, e, u, v, s, r, Pow2(k));
      CoprimeReaches(q, n, e, u, v / 2, s, 2 * r, k + 1);
    } else if u > v {
      SubtractFromU(q, e, u, v, s, r, Pow2(k));
      CoprimeReaches(q, n, e, (u - v) / 2, v, 2 * s, r + s, k + 1);
    } else {
      SubtractFromV(q, e, u, v, s, r, Pow2(k));
      CoprimeReaches(q, n, e, u, (v - u) / 2, s + r, 2 * r, k + 1);
    }
  }
}
