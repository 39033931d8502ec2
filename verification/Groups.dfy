/** A commutative group given by its operations; the point formulas of the curves stand
    behind `add` and `double`, whose laws are assumed. */
module Groups {
  import opened Congruence

  datatype Group<!G> = Group(zero: G, add: (G, G) -> G, double: G -> G, neg: G -> G)

  ghost predicate Laws<G(!new)>(g: Group<G>)
  {
    && (forall x, y, z :: g.add(g.add(x, y), z) == g.add(x, g.add(y, z)))
    && (forall x, y :: g.add(x, y) == g.add(y, x))
    && (forall x :: g.add(g.zero, x) == x)
    && (forall x :: g.double(x) == g.add(x, x))
    && (forall x :: g.add(x, g.neg(x)) == g.zero)
  }

  lemma Assoc<G(!new)>(g: Group<G>, x: G, y: G, z: G)
    requires Laws(g)
    ensures g.add(g.add(x, y), z) == g.add(x, g.add(y, z))
  {
  }

  lemma Comm<G(!new)>(g: Group<G>, x: G, y: G)
    requires Laws(g)
    ensures g.add(x, y) == g.add(y, x)
  {
  }

  lemma Unit<G(!new)>(g: Group<G>, x: G)
    requires Laws(g)
    ensures g.add(g.zero, x) == x && g.add(x, g.zero) == x
  {
    Comm(g, g.zero, x);
  }

  lemma Doubles<G(!new)>(g: Group<G>, x: G)
    requires Laws(g)
    ensures g.double(x) == g.add(x, x)
  {
  }

  lemma Inverse<G(!new)>(g: Group<G>, x: G)
    requires Laws(g)
    ensures g.add(x, g.neg(x)) == g.zero
  {
  }

  /** (w + x) + (y + z) == (w + y) + (x + z) */
  lemma Exchange<G(!new)>(g: Group<G>, w: G, x: G, y: G, z: G)
    requires Laws(g)
    ensures g.add(g.add(w, x), g.add(y, z)) == g.add(g.add(w, y), g.add(x, z))
  {
    hide Laws;
    Assoc(g, w, x, g.add(y, z));
    Assoc(g, x, y, z);
    Comm(g, x, y);
    Assoc(g, y, x, z);
    Assoc(g, w, y, g.add(x, z));
  }

  /** What adds up to zero with x is its inverse. */
  lemma InverseUnique<G(!new)>(g: Group<G>, x: G, y: G)
    requires Laws(g) && g.add(x, y) == g.zero
    ensures x == g.neg(y)
  {
    hide Laws;
    Inverse(g, y);
    Assoc(g, x, y, g.neg(y));
    Unit(g, x);
    Unit(g, g.neg(y));
  }

  /** n times a point, by adding it n times. */
  function Times<G>(g: Group<G>, n: nat, p: G): (r: G)
  {
    if n == 0 then g.zero else g.add(Times(g, n - 1, p), p)
  }

  /** Scalar multiplication by any integer. */
  function Scaled<G>(g: Group<G>, k: int, p: G): (r: G)
  {
    if k >= 0 then Times(g, k, p) else g.neg(Times(g, -k, p))
  }

  lemma TimesOne<G(!new)>(g: Group<G>, p: G)
    requires Laws(g)
    ensures Times(g, 0, p) == g.zero && Times(g, 1, p) == p
  {
    hide Laws;
    assert Times(g, 0, p) == g.zero;
    assert Times(g, 1, p) == g.add(Times(g, 0, p), p);
    Unit(g, p);
  }

  lemma {:induction false} TimesAdd<G(!new)>(g: Group<G>, m: nat, n: nat, p: G)
    requires Laws(g)
    ensures Times(g, m + n, p) == g.add(Times(g, m, p), Times(g, n, p))
  {
    hide Laws;
    if n == 0 {
      Unit(g, Times(g, m, p));
    } else {
      TimesAdd(g, m, n - 1, p);
      assert Times(g, m + n, p) == g.add(Times(g, m + (n - 1), p), p);
      Assoc(g, Times(g, m, p), Times(g, n - 1, p), p);
    }
  }

  lemma {:induction false} TimesSum<G(!new)>(g: Group<G>, n: nat, p: G, q: G)
    requires Laws(g)
    ensures Times(g, n, g.add(p, q)) == g.add(Times(g, n, p), Times(g, n, q))
  {
    hide Laws;
    if n == 0 {
      Unit(g, g.zero);
    } else {
      TimesSum(g, n - 1, p, q);
      Exchange(g, Times(g, n - 1, p), Times(g, n - 1, q), p, q);
    }
  }

  lemma {:induction false} TimesZero<G(!new)>(g: Group<G>, n: nat)
    requires Laws(g)
    ensures Times(g, n, g.zero) == g.zero
  {
    hide Laws;
    if n > 0 {
      TimesZero(g, n - 1);
      Unit(g, g.zero);
    }
  }

  lemma {:induction false} TimesMul<G(!new)>(g: Group<G>, m: nat, n: nat, p: G)
    requires Laws(g)
    ensures Times(g, m * n, p) == Times(g, m, Times(g, n, p))
  {
    hide Laws;
    if m > 0 {
      TimesMul(g, m - 1, n, p);
      assert m * n == (m - 1) * n + n;
      TimesAdd(g, (m - 1) * n, n, p);
    }
  }

  /** One step of double-and-add: 2a + b times p. */
  lemma TimesBit<G(!new)>(g: Group<G>, a: nat, b: nat, p: G)
    requires Laws(g) && b <= 1
    ensures Times(g, 2 * a + b, p) == (if b == 1 then g.add(g.double(Times(g, a, p)), p) else g.double(Times(g, a, p)))
  {
    hide Laws;
    Doubles(g, Times(g, a, p));
    TimesAdd(g, a, a, p);
    assert 2 * a == a + a;
    assert b == 1 ==> Times(g, 2 * a + b, p) == g.add(Times(g, 2 * a, p), p);
  }

  /** Where n kills p, multiples of n do. */
  lemma Killed<G(!new)>(g: Group<G>, m: nat, n: nat, p: G)
    requires Laws(g) && Times(g, n, p) == g.zero
    ensures Times(g, m * n, p) == g.zero
  {
    hide Laws;
    TimesMul(g, m, n, p);
    TimesZero(g, m);
  }

  /** A point of order dividing n is multiplied by the residue of the scalar. */
  lemma ScaledCong<G(!new)>(g: Group<G>, x: nat, k: int, n: nat, p: G)
    requires Laws(g) && n > 0 && Times(g, n, p) == g.zero && Cong(x, k, n)
    ensures Times(g, x, p) == Scaled(g, k, p)
  {
    hide Laws;
    var m := Quotient(x, k, n);
    if k >= 0 {
      if m >= 0 {
        ShiftedBy(g, x, k, m, n, p);
      } else {
        assert k == x + (-m) * n by { assert (-m) * n == -(m * n); }
        ShiftedBy(g, k, x, -m, n, p);
      }
    } else {
      var minus: nat := -k;
      assert x + minus == m * n;
      NonNegative(m, n);
      Killed(g, m, n, p);
      TimesAdd(g, x, minus, p);
      InverseUnique(g, Times(g, x, p), Times(g, minus, p));
    }
  }

  lemma NonNegative(m: int, n: nat)
    requires m * n > 0
    ensures m >= 0
  {
    assert m < 0 ==> m * n <= 0;
  }

  lemma ShiftedBy<G(!new)>(g: Group<G>, x: nat, y: nat, m: nat, n: nat, p: G)
    requires Laws(g) && Times(g, n, p) == g.zero && x == y + m * n
    ensures Times(g, x, p) == Times(g, y, p)
  {
    hide Laws, Times;
    var shift := m * n;
    Killed(g, m, n, p);
    TimesAdd(g, y, shift, p);
    Unit(g, Times(g, y, p));
  }
}
