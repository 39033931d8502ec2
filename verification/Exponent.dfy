/** Montgomery form, square-and-multiply exponentiation and inversion (fp.go). */
module Exponent {
  import opened Words
  import opened FieldElement
  import opened Congruence
  import opened Powers
  import opened Montgomery
  import opened Inverse

  /** R^2 mod q, the constant r2. */
  const RR: int := 0x11988fe592cae3aa9a793e85b519952d67eb88a9939d83c08de5476c4c95b6d50a76e6a609d104f1f4df1f341c341746
  /** R mod q, the constant r1: the Montgomery form of one. */
  const ONE: int := 0x15f65ec3fa80e4935c071a97a256ec6d77ce5853705257455f48985753c758baebf4000bc40c0002760900000002fffd

  lemma FormConstants()
    ensures Cong(RR, R * R, Q) && Cong(ONE, R, Q) && 0 <= RR < Q && 0 <= ONE < Q
  {
    CongFrom(RR, R * R, (RR - R * R) / Q, Q);
    CongFrom(ONE, R, (ONE - R) / Q, Q);
  }

  /** toMont: multiplication by r2. */
  function ToMont(x: int): (y: int)
    ensures 0 <= y < Q
  {
    MontMul(x, RR)
  }

  /** fromMont: multiplication by one. */
  function FromMont(y: int): (x: int)
    ensures 0 <= x < Q
  {
    MontMul(y, 1)
  }

  /** The Montgomery form of x is x*R. */
  lemma ToMontMeans(x: int)
    ensures Cong(ToMont(x), x * R, Q)
  {
    hide Cong, Redc;
    FormConstants();
    RedcMeans(x * RR);
    CongMul(RR, R * R, x, Q);
    CongTrans(R * ToMont(x), x * RR, x * (R * R), Q);
    Reorder(x, R);
    RadixCancels(ToMont(x), x * R);
  }

  lemma Reorder(x: int, r: int)
    ensures x * (r * r) == r * (x * r)
  {
  }

  /** Leaving Montgomery form undoes entering it, and entering it undoes leaving it. */
  lemma MontRoundTrip(x: int)
    requires 0 <= x < Q
    ensures FromMont(ToMont(x)) == x && ToMont(FromMont(x)) == x
  {
    hide Cong, Redc, ToMont;
    var z := FromMont(x);
    ToMontMeans(z);
    RedcMeans(x * 1);
    CongTrans(ToMont(z), z * R, x, Q);
    CongReduced(ToMont(z), x, Q);
    ToMontMeans(x);
    var y := ToMont(x);
    RedcMeans(y * 1);
    CongTrans(R * Redc(y * 1), y, x * R, Q);
    RadixCancels(Redc(y * 1), x);
    CongReduced(Redc(y * 1), x, Q);
  }

  /** Multiplying Montgomery forms multiplies what they stand for. */
  lemma MontHomomorphism(x: int, y: int)
    ensures MontMul(ToMont(x), ToMont(y)) == ToMont(x * y)
  {
    hide Cong, Redc, ToMont;
    ToMontMeans(x);
    ToMontMeans(y);
    ToMontMeans(x * y);
    var a, b, c := ToMont(x), ToMont(y), ToMont(x * y);
    CongMulBoth(a, x * R, b, y * R, Q);
    CongMul(c, (x * y) * R, R, Q);
    Regroup(x, y, R);
    CongSym(R * c, R * ((x * y) * R), Q);
    CongTrans(a * b, (x * R) * (y * R), R * c, Q);
    CongSym(a * b, R * c, Q);
    RedcUnique(c, a * b);
  }

  lemma Regroup(x: int, y: int, r: int)
    ensures (x * r) * (y * r) == r * ((x * y) * r)
  {
  }

  /** The result of Invert is the multiplicative inverse in Montgomery form. */
  lemma InverseTimesSelf(e: int, inv: int)
    requires Cong(e * inv, R * R, Q)
    ensures MontMul(e, inv) == ONE
  {
    hide Cong, Redc;
    FormConstants();
    CongMul(ONE, R, R, Q);
    CongSym(e * inv, R * R, Q);
    CongTrans(R * ONE, R * R, e * inv, Q);
    RedcUnique(ONE, e * inv);
  }

  /** The n-fold Montgomery product of a. */
  function MontPow(a: int, n: nat): (p: int)
    ensures 0 <= p < Q
  {
    if n == 0 then ONE else MontMul(MontPow(a, n - 1), a)
  }

  lemma {:induction false} MontPowAdd(a: int, m: nat, n: nat)
    ensures MontPow(a, m + n) == MontMul(MontPow(a, m), MontPow(a, n))
  {
    hide Cong, Redc;
    var x := MontPow(a, m);
    if n == 0 {
      FormConstants();
      CongMul(ONE, R, x, Q);
      CongSym(x * ONE, x * R, Q);
      RedcUnique(x, x * ONE);
    } else {
      MontPowAdd(a, m, n - 1);
      MontMulAssociative(x, MontPow(a, n - 1), a);
      assert MontPow(a, m + n) == MontMul(MontPow(a, m + n - 1), a);
    }
  }

  /** x multiplied n times. */
  function Pow(x: int, n: nat): (p: int)
  {
    if n == 0 then 1 else Pow(x, n - 1) * x
  }

  /** The powers of a Montgomery form are the forms of the powers. */
  lemma {:induction false} MontPowIsPower(x: int, n: nat)
    ensures MontPow(ToMont(x), n) == ToMont(Pow(x, n))
  {
    hide ToMont, MontMul;
    if n == 0 {
      FormOfOne();
    } else {
      MontPowIsPower(x, n - 1);
      MontHomomorphism(Pow(x, n - 1), x);
    }
  }

  lemma FormOfOne()
    ensures ToMont(1) == ONE
  {
    hide Cong, ToMont;
    ToMontMeans(1);
    FormConstants();
    CongSym(ONE, R, Q);
    CongTrans(ToMont(1), R, ONE, Q);
    CongReduced(ToMont(1), ONE, Q);
  }

  lemma MontMulAssociative(x: int, y: int, z: int)
    ensures MontMul(MontMul(x, y), z) == MontMul(x, MontMul(y, z))
  {
    hide Cong, Redc;
    var xy, yz := Redc(x * y), Redc(y * z);
    RedcMeans(x * y);
    RedcMeans(y * z);
    CongMul(R * xy, x * y, z, Q);
    CongMul(R * yz, y * z, x, Q);
    Triple(x, y, z, R, xy, yz);
    CongSym(x * (R * yz), x * (y * z), Q);
    CongTrans((R * xy) * z, (x * y) * z, x * (R * yz), Q);
    RadixCancels(xy * z, x * yz);
    RedcCong(xy * z, x * yz);
  }

  lemma Triple(x: int, y: int, z: int, r: int, xy: int, yz: int)
    ensures (r * xy) * z == r * (xy * z) && x * (r * yz) == r * (x * yz) && (x * y) * z == x * (y * z)
  {
  }

  /** exp: square-and-multiply from the bit above the top one down to bit 0. c may be a. */
  method Exp(c: array<Word>, a: array<Word>, e: nat)
    requires IsFe(c) && IsFe(a) && Val(a) < Q
    modifies c
    ensures Val(c) == MontPow(old(Val(a)), e)
    ensures forall n :: old(Val(a)) == ToMont(n) ==> Val(c) == ToMont(Pow(n, e))
  {
    hide Val, Num, BitLen, MontPow, MontMul, IsMontProduct, ToMont, Pow;
    var z := FromLimbs(0x760900000002fffd, 0xebf4000bc40c0002, 0x5f48985753c758ba,
                       0x77ce585370525745, 0x5c071a97a256ec6d, 0x15f65ec3fa80e493);
    OneLimbs();
    ghost var x := Val(a);
    MontPowBase(x, 0);
    var i: int := BitLen(e);
    ShrTop(e);
    while i >= 0
      invariant -1 <= i && Val(a) == x
      invariant Val(z) < Q && Val(z) == MontPow(x, Shr(e, i + 1))
    {
      ghost var n := Shr(e, i + 1);
      Mul(z, z, z);
      MontPowAdd(x, n, n);
      if Bit(e, i) == 1 {
        MontPowBase(x, n + n);
        Mul(z, z, a);
      }
      i := i - 1;
    }
    Set(c, z);
    forall n | x == ToMont(n)
      ensures MontPow(x, e) == ToMont(Pow(n, e))
    {
      MontPowIsPower(n, e);
    }
  }

  lemma MontPowBase(a: int, n: nat)
    ensures MontPow(a, 0) == ONE && MontPow(a, n + 1) == MontMul(MontPow(a, n), a)
  {
  }

  lemma OneLimbs()
    ensures Num(0x760900000002fffd, 0xebf4000bc40c0002, 0x5f48985753c758ba,
                0x77ce585370525745, 0x5c071a97a256ec6d, 0x15f65ec3fa80e493) == ONE
  {
  }
}
