/** Scalar multiplication on bn256's curve: one double-and-add over the joint digits of
    the two short parts of the scalar. */
module CurvePoint {
  import opened Powers
  import opened Groups
  import Lattice

  /** curvePoint.Mul; `phi` is the endomorphism that scales the x coordinate. */
  method Mul<G(!new)>(g: Group<G>, phi: G -> G, a: G, k: int) returns (c: G)
    requires Laws(g) && Times(g, Lattice.ORDER, a) == g.zero && phi(a) == Times(g, Lattice.LAMBDA, a)
    ensures c == Scaled(g, k, a)
  {
    hide Laws, Lattice.Part, Bit, Times, Lattice.Digit, Lattice.Max, Joint, Scaled;
    var b := phi(a);
    var precomp := [g.zero, a, b, g.add(a, b)];
    Lattice.CurveShort(k);
    ghost var x: nat, y: nat := Lattice.Part(Lattice.CURVE, k, 0), Lattice.Part(Lattice.CURVE, k, 1);
    assert Lattice.Parts(Lattice.CURVE, k) == [x, y];
    var multiScalar := Lattice.Multi(Lattice.CURVE, k);
    c := g.zero;
    var i := |multiScalar|;
    Start(g, x, y, i, a, b);
    while i > 0
      invariant 0 <= i <= |multiScalar|
      invariant c == Joint(g, Shr(x, i), Shr(y, i), a, b)
    {
      i := i - 1;
      var t := g.double(c);
      JointDigit(x, y, i);
      JointStep(g, x, y, i, a, b);
      if multiScalar[i] == 0 {
        c := t;
      } else {
        c := g.add(t, precomp[multiScalar[i]]);
      }
    }
    Finish(g, x, y, k, a, b);
  }

  /** m times a plus n times b */
  function Joint<G>(g: Group<G>, m: nat, n: nat, a: G, b: G): (r: G)
  {
    g.add(Times(g, m, a), Times(g, n, b))
  }

  lemma Start<G(!new)>(g: Group<G>, x: nat, y: nat, i: nat, a: G, b: G)
    requires Laws(g) && i == Lattice.Max([x, y], 2)
    ensures Joint(g, Shr(x, i), Shr(y, i), a, b) == g.zero
  {
    hide Laws;
    Lattice.MaxIsBound([x, y], 0, 2);
    Lattice.MaxIsBound([x, y], 1, 2);
    ShrAbove(x, i);
    ShrAbove(y, i);
    TimesOne(g, a);
    TimesOne(g, b);
    Unit(g, g.zero);
  }

  lemma JointDigit(x: nat, y: nat, i: nat)
    ensures Lattice.Digit([x, y], i, 2) == Bit(x, i) + 2 * Bit(y, i)
  {
    assert Pow2(1) == 2;
    assert Lattice.Digit([x, y], i, 1) == Lattice.Digit([x, y], i, 0) + Bit(x, i) * Pow2(0);
  }

  /** One more bit of both scalars: double, then add what the two bits select. */
  lemma JointStep<G(!new)>(g: Group<G>, x: nat, y: nat, i: nat, a: G, b: G)
    requires Laws(g)
    ensures var t := g.double(Joint(g, Shr(x, i + 1), Shr(y, i + 1), a, b));
            Joint(g, Shr(x, i), Shr(y, i), a, b) ==
            if Bit(x, i) == 0 then if Bit(y, i) == 0 then t else g.add(t, b)
            else if Bit(y, i) == 0 then g.add(t, a) else g.add(t, g.add(a, b))
  {
    hide Laws, Times;
    var m, n, v, w := Shr(x, i + 1), Shr(y, i + 1), Bit(x, i), Bit(y, i);
    assert Shr(x, i) == 2 * m + v && Shr(y, i) == 2 * n + w;
    hide Shr, Bit;
    TimesBit(g, m, v, a);
    TimesBit(g, n, w, b);
    var p, q := Times(g, m, a), Times(g, n, b);
    Doubles(g, p);
    Doubles(g, q);
    Doubles(g, g.add(p, q));
    Exchange(g, p, q, p, q);
    var t := g.add(g.double(p), g.double(q));
    Assoc(g, g.double(p), g.double(q), b);
    Assoc(g, g.double(p), a, g.double(q));
    Comm(g, a, g.double(q));
    Assoc(g, g.double(p), g.double(q), a);
    Exchange(g, g.double(p), a, g.double(q), b);
  }

  lemma Finish<G(!new)>(g: Group<G>, x: nat, y: nat, k: int, a: G, b: G)
    requires Laws(g) && Times(g, Lattice.ORDER, a) == g.zero && b == Times(g, Lattice.LAMBDA, a)
    requires Lattice.Square(Lattice.CURVE)
    requires x == Lattice.Part(Lattice.CURVE, k, 0) && y == Lattice.Part(Lattice.CURVE, k, 1)
    ensures Joint(g, x, y, a, b) == Scaled(g, k, a)
  {
    hide Laws, Lattice.Part, Times;
    Lattice.CurveRecombines(k);
    var lambda: nat := Lattice.LAMBDA;
    TimesMul(g, y, lambda, a);
    TimesAdd(g, x, y * lambda, a);
    ScaledCong(g, x + y * lambda, k, Lattice.ORDER, a);
  }
}
