/** Congruence of integers modulo a positive m, used as a set of small steps. */
module Congruence {

  ghost predicate Cong(a: int, b: int, m: int)
    requires m > 0
  {
    (a - b) % m == 0
  }

  lemma CongFrom(a: int, b: int, k: int, m: int)
    requires m > 0 && a == b + k * m
    ensures Cong(a, b, m)
  {
    RemainderUnique(0, k, m, a - b);
  }

  /** The remainder is the only representative in range. */
  lemma RemainderUnique(x: int, k: int, m: int, n: int)
    requires 0 <= x < m && x + m * k == n
    ensures n % m == x
  {
    var d := n / m - k;
    assert m * d == x - n % m;
    assert d >= 1 ==> m * d >= m;
    assert d <= -1 ==> m * d <= -m;
  }

  lemma Quotient(a: int, b: int, m: int) returns (k: int)
    requires m > 0 && Cong(a, b, m)
    ensures a == b + k * m
  {
    k := (a - b) / m;
  }

  lemma CongRefl(a: int, m: int)
    requires m > 0
    ensures Cong(a, a, m)
  {
    CongFrom(a, a, 0, m);
  }

  lemma CongSym(a: int, b: int, m: int)
    requires m > 0 && Cong(a, b, m)
    ensures Cong(b, a, m)
  {
    var k := Quotient(a, b, m);
    CongFrom(b, a, -k, m);
  }

  lemma CongTrans(a: int, b: int, c: int, m: int)
    requires m > 0 && Cong(a, b, m) && Cong(b, c, m)
    ensures Cong(a, c, m)
  {
    var k := Quotient(a, b, m);
    var l := Quotient(b, c, m);
    CongFrom(a, c, k + l, m);
  }

  lemma CongAdd(a: int, b: int, c: int, d: int, m: int)
    requires m > 0 && Cong(a, b, m) && Cong(c, d, m)
    ensures Cong(a + c, b + d, m) && Cong(a - c, b - d, m)
  {
    var k := Quotient(a, b, m);
    var l := Quotient(c, d, m);
    CongFrom(a + c, b + d, k + l, m);
    CongFrom(a - c, b - d, k - l, m);
  }

  lemma CongMul(a: int, b: int, c: int, m: int)
    requires m > 0 && Cong(a, b, m)
    ensures Cong(a * c, b * c, m) && Cong(c * a, c * b, m)
  {
    var k := Quotient(a, b, m);
    assert a * c == b * c + (k * c) * m;
    CongFrom(a * c, b * c, k * c, m);
  }

  lemma CongMulBoth(a: int, b: int, c: int, d: int, m: int)
    requires m > 0 && Cong(a, b, m) && Cong(c, d, m)
    ensures Cong(a * c, b * d, m)
  {
    CongMul(a, b, c, m);
    CongMul(c, d, b, m);
    CongTrans(a * c, b * c, b * d, m);
  }

  lemma CongMod(a: int, m: int)
    requires m > 0
    ensures Cong(a % m, a, m)
  {
    CongFrom(a % m, a, -(a / m), m);
  }

  /** Congruent numbers that are both reduced are equal. */
  lemma CongReduced(a: int, b: int, m: int)
    requires m > 0 && Cong(a, b, m) && 0 <= a < m && 0 <= b < m
    ensures a == b
  {
    var k := Quotient(a, b, m);
    assert k >= 1 ==> k * m >= m;
    assert k <= -1 ==> k * m <= -m;
  }

  /** A factor with an inverse modulo m may be cancelled. */
  lemma CongCancel(a: int, b: int, c: int, inv: int, m: int)
    requires m > 0 && Cong(c * inv, 1, m) && Cong(c * a, c * b, m)
    ensures Cong(a, b, m)
  {
    CongUndo(a, c, inv, m);
    CongUndo(b, c, inv, m);
    CongMul(c * a, c * b, inv, m);
    CongTrans(a, inv * (c * a), inv * (c * b), m);
    CongSym(b, inv * (c * b), m);
    CongTrans(a, inv * (c * b), b, m);
  }

  lemma CongUndo(a: int, c: int, inv: int, m: int)
    requires m > 0 && Cong(c * inv, 1, m)
    ensures Cong(a, inv * (c * a), m)
  {
    CongMul(c * inv, 1, a, m);
    assert (c * inv) * a == inv * (c * a);
    CongSym(inv * (c * a), a, m);
  }
}
