/** The quadratic extension of fp2.go: pairs (c0, c1) of limb arrays standing for
    c0 + c1*i with i*i = -1, and the shared scratch elements t[0..3]. */
module Fp2 {
  import opened Words
  import opened FieldElement
  import opened Congruence
  import opened Montgomery

  /** Karatsuba: the middle term is the product of the sums minus the two outer products. */
  lemma KaratsubaTerms(q: int, r: int, a0: int, a1: int, b0: int, b1: int,
                       outer0: int, outer1: int, sa: int, sb: int, mid: int, c0: int, c1: int)
    requires q > 0
    requires Cong(r * outer0, a0 * b0, q) && Cong(r * outer1, a1 * b1, q)
    requires Cong(sa, a0 + a1, q) && Cong(sb, b0 + b1, q) && Cong(r * mid, sa * sb, q)
    requires Cong(c0, outer0 - outer1, q) && Cong(c1, mid - (outer0 + outer1), q)
    ensures Cong(r * c0, a0 * b0 - a1 * b1, q)
    ensures Cong(r * c1, a0 * b1 + a1 * b0, q)
  {
    hide Cong;
    CongAdd(r * outer0, a0 * b0, r * outer1, a1 * b1, q);
    CongMul(c0, outer0 - outer1, r, q);
    Distribute(r, outer0, outer1);
    CongTrans(r * c0, r * (outer0 - outer1), a0 * b0 - a1 * b1, q);

    CongMulBoth(sa, a0 + a1, sb, b0 + b1, q);
    CongTrans(r * mid, sa * sb, (a0 + a1) * (b0 + b1), q);
    CongAdd(r * mid, (a0 + a1) * (b0 + b1), r * outer0 + r * outer1, a0 * b0 + a1 * b1, q);
    CongMul(c1, mid - (outer0 + outer1), r, q);
    Distribute(r, mid, outer0 + outer1);
    CrossTerms(a0, a1, b0, b1);
    CongTrans(r * c1, r * (mid - (outer0 + outer1)), a0 * b1 + a1 * b0, q);
  }

  lemma Distribute(r: int, x: int, y: int)
    ensures r * (x - y) == r * x - r * y && r * (x + y) == r * x + r * y
  {
  }

  lemma CrossTerms(a0: int, a1: int, b0: int, b1: int)
    ensures (a0 + a1) * (b0 + b1) - (a0 * b0 + a1 * b1) == a0 * b1 + a1 * b0
  {
  }

  /** The product of two elements of the extension, in Montgomery form. */
  function ProductRe(a0: int, a1: int, b0: int, b1: int): (c: int)
    ensures 0 <= c < Q
  {
    Redc(a0 * b0 - a1 * b1)
  }

  function ProductIm(a0: int, a1: int, b0: int, b1: int): (c: int)
    ensures 0 <= c < Q
  {
    Redc(a0 * b1 + a1 * b0)
  }

  /** The eight steps of mul, as numbers. */
  lemma KaratsubaProduct(a0: int, a1: int, b0: int, b1: int)
    ensures
      var outer0 := MontMul(a0, b0);
      var outer1 := MontMul(a1, b1);
      var mid := MontMul(AddQ(a0, a1), AddQ(b0, b1));
      && SubQ(outer0, outer1) == ProductRe(a0, a1, b0, b1)
      && SubQ(mid, AddQ(outer0, outer1)) == ProductIm(a0, a1, b0, b1)
  {
    hide Cong, Redc, MontMul;
    var outer0 := MontMul(a0, b0);
    var outer1 := MontMul(a1, b1);
    var sa, sb := AddQ(a0, a1), AddQ(b0, b1);
    var mid := MontMul(sa, sb);
    var c0, c1 := SubQ(outer0, outer1), SubQ(mid, AddQ(outer0, outer1));
    MontMulMeans(a0, b0);
    MontMulMeans(a1, b1);
    MontMulMeans(sa, sb);
    CongMod(a0 + a1, Q);
    CongMod(b0 + b1, Q);
    CongMod(outer0 - outer1, Q);
    CongMod(outer0 + outer1, Q);
    MiddleTerm(Q, mid, AddQ(outer0, outer1), outer0 + outer1, c1);
    KaratsubaTerms(Q, R, a0, a1, b0, b1, outer0, outer1, sa, sb, mid, c0, c1);
    RedcUnique(c0, a0 * b0 - a1 * b1);
    RedcUnique(c1, a0 * b1 + a1 * b0);
  }

  /** (a0 + a1) * (a0 - a1) and 2 * a0 * a1: the lazily reduced square. */
  lemma SquareTerms(q: int, r: int, a0: int, a1: int, diff: int, c0: int, c1: int)
    requires q > 0 && Cong(diff, a0 - a1, q)
    requires Cong(r * c0, (a0 + a1) * diff, q) && Cong(r * c1, (a0 + a0) * a1, q)
    ensures Cong(r * c0, a0 * a0 - a1 * a1, q)
    ensures Cong(r * c1, a0 * a1 + a1 * a0, q)
  {
    CongMul(diff, a0 - a1, a0 + a1, q);
    assert (a0 + a1) * (a0 - a1) == a0 * a0 - a1 * a1;
    CongTrans(r * c0, (a0 + a1) * diff, a0 * a0 - a1 * a1, q);
    assert (a0 + a0) * a1 == a0 * a1 + a1 * a0;
  }

  /** The five steps of square, as numbers: neither sum is reduced first. */
  lemma LazySquare(a0: int, a1: int)
    ensures MontMul(a0 + a1, SubQ(a0, a1)) == ProductRe(a0, a1, a0, a1)
    ensures MontMul(a0 + a0, a1) == ProductIm(a0, a1, a0, a1)
  {
    hide Cong, Redc, MontMul;
    var diff := SubQ(a0, a1);
    var c0, c1 := MontMul(a0 + a1, diff), MontMul(a0 + a0, a1);
    MontMulMeans(a0 + a1, diff);
    MontMulMeans(a0 + a0, a1);
    CongMod(a0 - a1, Q);
    SquareTerms(Q, R, a0, a1, diff, c0, c1);
    RedcUnique(c0, a0 * a0 - a1 * a1);
    RedcUnique(c1, a0 * a1 + a1 * a0);
  }

  /** fp2 and its temporaries. */
  class Fp2 {
    const t0: array<Word>
    const t1: array<Word>
    const t2: array<Word>
    const t3: array<Word>

    constructor ()
      ensures fresh(t0) && fresh(t1) && fresh(t2) && fresh(t3) && Valid()
    {
      t0 := new Word[6](_ => 0);
      t1 := new Word[6](_ => 0);
      t2 := new Word[6](_ => 0);
      t3 := new Word[6](_ => 0);
    }

    predicate Valid()
    {
      && IsFe(t0) && IsFe(t1) && IsFe(t2) && IsFe(t3)
      && t0 != t1 && t0 != t2 && t0 != t3 && t1 != t2 && t1 != t3 && t2 != t3
    }

    /** a is a field element of the caller's, apart from the temporaries. */
    predicate External(a: array<Word>)
    {
      IsFe(a) && a != t0 && a != t1 && a != t2 && a != t3
    }

    /** mul, and mulAssign when (c0, c1) is (a0, a1). The only aliasing the source
        never produces is between the two halves of a result. */
    method Mul(c0: array<Word>, c1: array<Word>, a0: array<Word>, a1: array<Word>, b0: array<Word>, b1: array<Word>)
      requires Valid() && External(c0) && External(c1) && External(a0) && External(a1) && External(b0) && External(b1)
      requires c0 != c1
      requires Val(a0) < Q && Val(a1) < Q && Val(b0) < Q && Val(b1) < Q
      modifies c0, c1, t0, t1, t2, t3
      ensures Val(c0) == ProductRe(old(Val(a0)), old(Val(a1)), old(Val(b0)), old(Val(b1)))
      ensures Val(c1) == ProductIm(old(Val(a0)), old(Val(a1)), old(Val(b0)), old(Val(b1)))
    {
      hide Val, Num, AddQ, SubQ, MontMul, IsMontProduct, ProductRe, ProductIm;
      KaratsubaProduct(Val(a0), Val(a1), Val(b0), Val(b1));
      Montgomery.Mul(t1, a0, b0);
      Montgomery.Mul(t2, a1, b1);
      Add(t0, a0, a1);
      Add(t3, b0, b1);
      Sub(c0, t1, t2);
      Add(t1, t1, t2);
      Montgomery.Mul(t0, t0, t3);
      Sub(c1, t0, t1);
    }

    /** square, and squareAssign when (c0, c1) is (a0, a1): a0 + a1 and 2*a0 are left
        unreduced and fed to the multiplication as they are. */
    method Square(c0: array<Word>, c1: array<Word>, a0: array<Word>, a1: array<Word>)
      requires Valid() && External(c0) && External(c1) && External(a0) && External(a1)
      requires c0 != c1 && c0 != a1
      requires Val(a0) < Q && Val(a1) < Q
      modifies c0, c1, t0, t1, t2
      ensures Val(c0) == ProductRe(old(Val(a0)), old(Val(a1)), old(Val(a0)), old(Val(a1)))
      ensures Val(c1) == ProductIm(old(Val(a0)), old(Val(a1)), old(Val(a0)), old(Val(a1)))
    {
      hide Val, Num, AddQ, SubQ, MontMul, IsMontProduct, ProductRe, ProductIm;
      LazySquare(Val(a0), Val(a1));
      LAdd(t0, a0, a1);
      Sub(t1, a0, a1);
      LAdd(t2, a0, a0);
      Montgomery.Mul(c0, t0, t1);
      Montgomery.Mul(c1, t2, a1);
    }
  }

  lemma MiddleTerm(q: int, mid: int, outer: int, sum: int, c: int)
    requires q > 0 && Cong(outer, sum, q) && c == (mid - outer) % q
    ensures Cong(c, mid - sum, q)
  {
    CongMod(mid - outer, q);
    CongRefl(mid, q);
    CongAdd(mid, mid, outer, sum, q);
    CongTrans(c, mid - outer, mid - sum, q);
  }
}
