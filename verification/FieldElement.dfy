/** Base-field elements of BLS12-381: six little-endian 64-bit limbs that every
    operation overwrites in place. Operands may be the same array. */
module FieldElement {
  import opened Words
  import opened Congruence

  const W3: int := 0x1_0000_0000_0000_0000_0000_0000_0000_0000_0000_0000_0000_0000
  const W4: int := 0x1_0000_0000_0000_0000_0000_0000_0000_0000_0000_0000_0000_0000_0000_0000_0000_0000
  const W5: int := 0x1_0000_0000_0000_0000_0000_0000_0000_0000_0000_0000_0000_0000_0000_0000_0000_0000_0000_0000_0000_0000
  /** R = 2^384, the Montgomery radix. */
  const R: int := 0x1_0000_0000_0000_0000_0000_0000_0000_0000_0000_0000_0000_0000_0000_0000_0000_0000_0000_0000_0000_0000_0000_0000_0000_0000

  /** The field modulus. */
  const Q: int := 0x1a0111ea397fe69a4b1ba7b6434bacd764774b84f38512bf6730d2a0f6b0f6241eabfffeb153ffffb9feffffffffaaab

  const Q0: Word := 13402431016077863595
  const Q1: Word := 2210141511517208575
  const Q2: Word := 7435674573564081700
  const Q3: Word := 7239337960414712511
  const Q4: Word := 5412103778470702295
  const Q5: Word := 1873798617647539866

  /** The number six limbs stand for. */
  function Num(a0: Word, a1: Word, a2: Word, a3: Word, a4: Word, a5: Word): (n: int)
    ensures 0 <= n < R
  {
    a0 + a1 * W + a2 * W2 + a3 * W3 + a4 * W4 + a5 * W5
  }

  predicate IsFe(a: array<Word>) { a.Length == 6 }

  function Val(a: array<Word>): (n: int)
    requires IsFe(a)
    reads a
    ensures 0 <= n < R
  {
    Num(a[0], a[1], a[2], a[3], a[4], a[5])
  }

  lemma ModulusLimbs()
    ensures Num(Q0, Q1, Q2, Q3, Q4, Q5) == Q
  {
  }

  /** Equal numbers have equal limbs. */
  lemma NumInjective(a0: Word, a1: Word, a2: Word, a3: Word, a4: Word, a5: Word,
                     b0: Word, b1: Word, b2: Word, b3: Word, b4: Word, b5: Word)
    requires Num(a0, a1, a2, a3, a4, a5) == Num(b0, b1, b2, b3, b4, b5)
    ensures a0 == b0 && a1 == b1 && a2 == b2 && a3 == b3 && a4 == b4 && a5 == b5
  {
    SplitLow(a0, a1 + a2 * W + a3 * W2 + a4 * W3 + a5 * W4, b0, b1 + b2 * W + b3 * W2 + b4 * W3 + b5 * W4);
    SplitLow(a1, a2 + a3 * W + a4 * W2 + a5 * W3, b1, b2 + b3 * W + b4 * W2 + b5 * W3);
    SplitLow(a2, a3 + a4 * W + a5 * W2, b2, b3 + b4 * W + b5 * W2);
    SplitLow(a3, a4 + a5 * W, b3, b4 + b5 * W);
    SplitLow(a4, a5, b4, b5);
  }

  lemma SplitLow(a: Word, x: int, b: Word, y: int)
    requires a + W * x == b + W * y
    ensures a == b && x == y
  {
  }

  /** Six chained bits.Add64 calls add the numbers exactly, up to the carry out. */
  lemma CarryChain(x0: Word, x1: Word, x2: Word, x3: Word, x4: Word, x5: Word,
                   y0: Word, y1: Word, y2: Word, y3: Word, y4: Word, y5: Word,
                   z0: Word, z1: Word, z2: Word, z3: Word, z4: Word, z5: Word,
                   c0: int, c1: int, c2: int, c3: int, c4: int, c5: int)
    requires z0 + W * c0 == x0 + y0
    requires z1 + W * c1 == x1 + y1 + c0
    requires z2 + W * c2 == x2 + y2 + c1
    requires z3 + W * c3 == x3 + y3 + c2
    requires z4 + W * c4 == x4 + y4 + c3
    requires z5 + W * c5 == x5 + y5 + c4
    ensures Num(z0, z1, z2, z3, z4, z5) + R * c5 == Num(x0, x1, x2, x3, x4, x5) + Num(y0, y1, y2, y3, y4, y5)
  {
  }

  /** The same chain with q as one of the summands. */
  lemma CarryChainQ(x0: Word, x1: Word, x2: Word, x3: Word, x4: Word, x5: Word,
                    z0: Word, z1: Word, z2: Word, z3: Word, z4: Word, z5: Word,
                    c0: int, c1: int, c2: int, c3: int, c4: int, c5: int)
    requires z0 + W * c0 == x0 + Q0
    requires z1 + W * c1 == x1 + Q1 + c0
    requires z2 + W * c2 == x2 + Q2 + c1
    requires z3 + W * c3 == x3 + Q3 + c2
    requires z4 + W * c4 == x4 + Q4 + c3
    requires z5 + W * c5 == x5 + Q5 + c4
    ensures Num(z0, z1, z2, z3, z4, z5) + R * c5 == Num(x0, x1, x2, x3, x4, x5) + Q
  {
    CarryChain(x0, x1, x2, x3, x4, x5, Q0, Q1, Q2, Q3, Q4, Q5, z0, z1, z2, z3, z4, z5, c0, c1, c2, c3, c4, c5);
    ModulusLimbs();
  }

  /** The carry chain of bits.Add64 calls shared by add, ladd and double. */
  method AddLimbs(z: array<Word>, x: array<Word>, y: array<Word>) returns (c: Word)
    requires IsFe(z) && IsFe(x) && IsFe(y)
    modifies z
    ensures c <= 1 && Val(z) + R * c == old(Val(x)) + old(Val(y))
  {
    var c0, c1, c2, c3, c4;
    z[0], c0 := Add64(x[0], y[0], 0);
    z[1], c1 := Add64(x[1], y[1], c0);
    z[2], c2 := Add64(x[2], y[2], c1);
    z[3], c3 := Add64(x[3], y[3], c2);
    z[4], c4 := Add64(x[4], y[4], c3);
    z[5], c := Add64(x[5], y[5], c4);
    CarryChain(old(x[0]), old(x[1]), old(x[2]), old(x[3]), old(x[4]), old(x[5]),
               old(y[0]), old(y[1]), old(y[2]), old(y[3]), old(y[4]), old(y[5]),
               z[0], z[1], z[2], z[3], z[4], z[5], c0, c1, c2, c3, c4, c);
  }

  /** The borrow chain shared by sub and lsubAssign. */
  method SubLimbs(z: array<Word>, x: array<Word>, y: array<Word>) returns (b: Word)
    requires IsFe(z) && IsFe(x) && IsFe(y)
    modifies z
    ensures b <= 1 && Val(z) - R * b == old(Val(x)) - old(Val(y))
  {
    var b0, b1, b2, b3, b4;
    z[0], b0 := Sub64(x[0], y[0], 0);
    z[1], b1 := Sub64(x[1], y[1], b0);
    z[2], b2 := Sub64(x[2], y[2], b1);
    z[3], b3 := Sub64(x[3], y[3], b2);
    z[4], b4 := Sub64(x[4], y[4], b3);
    z[5], b := Sub64(x[5], y[5], b4);
    CarryChain(z[0], z[1], z[2], z[3], z[4], z[5],
               old(y[0]), old(y[1]), old(y[2]), old(y[3]), old(y[4]), old(y[5]),
               old(x[0]), old(x[1]), old(x[2]), old(x[3]), old(x[4]), old(x[5]), b0, b1, b2, b3, b4, b);
  }

  /** ladd, laddAssign (z == x) and ldouble (x == y): the carry out is dropped,
      so the sum is exact when it fits in 384 bits. */
  method LAdd(z: array<Word>, x: array<Word>, y: array<Word>)
    requires IsFe(z) && IsFe(x) && IsFe(y)
    modifies z
    ensures Val(z) == old(Val(x)) + old(Val(y)) - if old(Val(x)) + old(Val(y)) < R then 0 else R
  {
    hide Val, Num;
    var _ := AddLimbs(z, x, y);
  }

  /** lsubAssign: the borrow out is dropped, so the difference is exact when it
      is not negative. */
  method LSubAssign(z: array<Word>, x: array<Word>)
    requires IsFe(z) && IsFe(x)
    modifies z
    ensures Val(z) == old(Val(z)) - old(Val(x)) + if old(Val(z)) >= old(Val(x)) then 0 else R
  {
    hide Val, Num;
    var _ := SubLimbs(z, z, x);
  }

  /** The guard "z >= q" of the final reduction, limb by limb from the top. */
  predicate Below(z: array<Word>)
    requires IsFe(z)
    reads z
    ensures Below(z) <==> Val(z) < Q
  {
    z[5] < Q5 || (z[5] == Q5 && (z[4] < Q4 || (z[4] == Q4 && (z[3] < Q3 || (z[3] == Q3 &&
    (z[2] < Q2 || (z[2] == Q2 && (z[1] < Q1 || (z[1] == Q1 && z[0] < Q0)))))))))
  }

  /** The conditional subtraction of q that ends add, double and mul. */
  method ReduceOnce(z: array<Word>)
    requires IsFe(z)
    modifies z
    ensures Val(z) == if old(Val(z)) < Q then old(Val(z)) else old(Val(z)) - Q
  {
    if !Below(z) {
      var _ := SubModulus(z);
    }
  }

  /** The subtraction of q, with the borrow that the source drops. */
  method SubModulus(z: array<Word>) returns (b: Word)
    requires IsFe(z)
    modifies z
    ensures b <= 1 && Val(z) - R * b == old(Val(z)) - Q
  {
    var b0, b1, b2, b3, b4;
    z[0], b0 := Sub64(z[0], Q0, 0);
    z[1], b1 := Sub64(z[1], Q1, b0);
    z[2], b2 := Sub64(z[2], Q2, b1);
    z[3], b3 := Sub64(z[3], Q3, b2);
    z[4], b4 := Sub64(z[4], Q4, b3);
    z[5], b := Sub64(z[5], Q5, b4);
    CarryChainQ(z[0], z[1], z[2], z[3], z[4], z[5],
                old(z[0]), old(z[1]), old(z[2]), old(z[3]), old(z[4]), old(z[5]), b0, b1, b2, b3, b4, b);
  }

  /** Sums and differences modulo q. */
  function AddQ(x: int, y: int): (z: int)
    ensures 0 <= z < Q
  {
    (x + y) % Q
  }

  function SubQ(x: int, y: int): (z: int)
    ensures 0 <= z < Q
  {
    (x - y) % Q
  }

  /** add, addAssign (z == x), double and doubleAssign (x == y). */
  method Add(z: array<Word>, x: array<Word>, y: array<Word>)
    requires IsFe(z) && IsFe(x) && IsFe(y) && Val(x) < Q && Val(y) < Q
    modifies z
    ensures Val(z) == AddQ(old(Val(x)), old(Val(y)))
  {
    hide Val, Num;
    var _ := AddLimbs(z, x, y);
    ReduceOnce(z);
    RemainderUnique(Val(z), if old(Val(x)) + old(Val(y)) < Q then 0 else 1, Q, old(Val(x)) + old(Val(y)));
  }

  /** double for any x whose double fits, reduced or not. */
  method Double(z: array<Word>, x: array<Word>)
    requires IsFe(z) && IsFe(x) && 2 * Val(x) < R
    modifies z
    ensures Val(z) == if 2 * old(Val(x)) < Q then 2 * old(Val(x)) else 2 * old(Val(x)) - Q
  {
    hide Val, Num;
    var _ := AddLimbs(z, x, x);
    ReduceOnce(z);
  }

  /** sub and subAssign (z == x). */
  method Sub(z: array<Word>, x: array<Word>, y: array<Word>)
    requires IsFe(z) && IsFe(x) && IsFe(y) && Val(x) < Q && Val(y) < Q
    modifies z
    ensures Val(z) == SubQ(old(Val(x)), old(Val(y)))
  {
    hide Val, Num;
    var b := SubLimbs(z, x, y);
    if b != 0 {
      var _ := AddModulus(z);
    }
    RemainderUnique(Val(z), if b != 0 then -1 else 0, Q, old(Val(x)) - old(Val(y)));
  }

  /** The addition of q after a borrow, with the carry that the source drops. */
  method AddModulus(z: array<Word>) returns (c: Word)
    requires IsFe(z)
    modifies z
    ensures c <= 1 && Val(z) + R * c == old(Val(z)) + Q
  {
    var c0, c1, c2, c3, c4;
    z[0], c0 := Add64(z[0], Q0, 0);
    z[1], c1 := Add64(z[1], Q1, c0);
    z[2], c2 := Add64(z[2], Q2, c1);
    z[3], c3 := Add64(z[3], Q3, c2);
    z[4], c4 := Add64(z[4], Q4, c3);
    z[5], c := Add64(z[5], Q5, c4);
    CarryChainQ(old(z[0]), old(z[1]), old(z[2]), old(z[3]), old(z[4]), old(z[5]),
                z[0], z[1], z[2], z[3], z[4], z[5], c0, c1, c2, c3, c4, c);
  }

  predicate IsZero(x: array<Word>)
    requires IsFe(x)
    reads x
    ensures IsZero(x) <==> Val(x) == 0
  {
    x[5] == 0 && x[4] == 0 && x[3] == 0 && x[2] == 0 && x[1] == 0 && x[0] == 0
  }

  predicate IsEven(x: array<Word>)
    requires IsFe(x)
    reads x
    ensures IsEven(x) <==> Val(x) % 2 == 0
  {
    x[0] % 2 == 0
  }

  /** neg: 0 stays 0, so that the result is reduced. */
  method Neg(z: array<Word>, x: array<Word>)
    requires IsFe(z) && IsFe(x) && Val(x) < Q
    modifies z
    ensures Val(z) == SubQ(0, old(Val(x)))
  {
    hide Val, Num;
    if IsZero(x) {
      Zero(z);
    } else {
      var _ := SubFromModulus(z, x);
      RemainderUnique(Val(z), -1, Q, -old(Val(x)));
    }
  }

  method SubFromModulus(z: array<Word>, x: array<Word>) returns (b: Word)
    requires IsFe(z) && IsFe(x)
    modifies z
    ensures b <= 1 && Val(z) - R * b == Q - old(Val(x))
  {
    var b0, b1, b2, b3, b4;
    z[0], b0 := Sub64(Q0, x[0], 0);
    z[1], b1 := Sub64(Q1, x[1], b0);
    z[2], b2 := Sub64(Q2, x[2], b1);
    z[3], b3 := Sub64(Q3, x[3], b2);
    z[4], b4 := Sub64(Q4, x[4], b3);
    z[5], b := Sub64(Q5, x[5], b4);
    CarryChain(z[0], z[1], z[2], z[3], z[4], z[5],
               old(x[0]), old(x[1]), old(x[2]), old(x[3]), old(x[4]), old(x[5]),
               Q0, Q1, Q2, Q3, Q4, Q5, b0, b1, b2, b3, b4, b);
    ModulusLimbs();
  }

  /** cmp: limbs are compared from the most significant down. */
  method Cmp(x: array<Word>, y: array<Word>) returns (r: int)
    requires IsFe(x) && IsFe(y)
    ensures r == if Val(x) > Val(y) then 1 else if Val(x) < Val(y) then -1 else 0
  {
    var i := 5;
    while i >= 0
      invariant -1 <= i <= 5
      invariant forall j :: i < j < 6 ==> x[j] == y[j]
    {
      if x[i] > y[i] {
        TopLimbDecides(x, y, i);
        return 1;
      } else if x[i] < y[i] {
        TopLimbDecides(y, x, i);
        return -1;
      }
      i := i - 1;
    }
    return 0;
  }

  lemma TopLimbDecides(x: array<Word>, y: array<Word>, i: int)
    requires IsFe(x) && IsFe(y) && 0 <= i < 6 && x[i] > y[i]
    requires forall j :: i < j < 6 ==> x[j] == y[j]
    ensures Val(x) > Val(y)
  {
    assert i < 5 ==> x[5] == y[5];
    assert i < 4 ==> x[4] == y[4];
    assert i < 3 ==> x[3] == y[3];
    assert i < 2 ==> x[2] == y[2];
    assert i < 1 ==> x[1] == y[1];
  }

  /** The bit a left shift pushes out. */
  function TopBit(x: Word): (e: Word)
    ensures e <= 1
  {
    if x < HALF then 0 else 1
  }

  /** x >> 1 | y << 63: the two operands of `|` share no bit. */
  method ShiftRight(x: Word, y: Word) returns (r: Word)
    ensures 2 * r == x - x % 2 + W * (y % 2)
  {
    r := x / 2 + (y % 2) * HALF;
  }

  /** x << 1 | y >> 63 */
  method ShiftLeft(x: Word, y: Word) returns (r: Word)
    ensures r + W * TopBit(x) == 2 * x + TopBit(y)
  {
    r := (2 * x) % W + y / HALF;
  }

  /** div2: a one-bit right shift across the limbs, with the low bit of e put on top. */
  method Div2(x: array<Word>, e: Word)
    requires IsFe(x)
    modifies x
    ensures Val(x) == old(Val(x)) / 2 + (e % 2) * (R / 2)
  {
    x[0] := ShiftRight(x[0], x[1]);
    x[1] := ShiftRight(x[1], x[2]);
    x[2] := ShiftRight(x[2], x[3]);
    x[3] := ShiftRight(x[3], x[4]);
    x[4] := ShiftRight(x[4], x[5]);
    x[5] := ShiftRight(x[5], e);
    RightChain(old(x[0]), old(x[1]), old(x[2]), old(x[3]), old(x[4]), old(x[5]), e % 2,
               x[0], x[1], x[2], x[3], x[4], x[5]);
  }

  lemma RightChain(x0: Word, x1: Word, x2: Word, x3: Word, x4: Word, x5: Word, top: Word,
                   r0: Word, r1: Word, r2: Word, r3: Word, r4: Word, r5: Word)
    requires 2 * r0 == x0 - x0 % 2 + W * (x1 % 2)
    requires 2 * r1 == x1 - x1 % 2 + W * (x2 % 2)
    requires 2 * r2 == x2 - x2 % 2 + W * (x3 % 2)
    requires 2 * r3 == x3 - x3 % 2 + W * (x4 % 2)
    requires 2 * r4 == x4 - x4 % 2 + W * (x5 % 2)
    requires 2 * r5 == x5 - x5 % 2 + W * top
    ensures Num(r0, r1, r2, r3, r4, r5) == Num(x0, x1, x2, x3, x4, x5) / 2 + top * (R / 2)
  {
    assert 2 * Num(r0, r1, r2, r3, r4, r5) == Num(x0, x1, x2, x3, x4, x5) - x0 % 2 + R * top;
  }

  /** mul2: a one-bit left shift; the bit shifted out is returned. */
  method Mul2(x: array<Word>) returns (e: Word)
    requires IsFe(x)
    modifies x
    ensures e <= 1 && Val(x) + R * e == 2 * old(Val(x))
  {
    e := TopBit(x[5]);
    x[5] := ShiftLeft(x[5], x[4]);
    x[4] := ShiftLeft(x[4], x[3]);
    x[3] := ShiftLeft(x[3], x[2]);
    x[2] := ShiftLeft(x[2], x[1]);
    x[1] := ShiftLeft(x[1], x[0]);
    x[0] := ShiftLeft(x[0], 0);
    LeftChain(old(x[0]), old(x[1]), old(x[2]), old(x[3]), old(x[4]), old(x[5]), x[0], x[1], x[2], x[3], x[4], x[5]);
  }

  lemma LeftChain(x0: Word, x1: Word, x2: Word, x3: Word, x4: Word, x5: Word,
                  r0: Word, r1: Word, r2: Word, r3: Word, r4: Word, r5: Word)
    requires r0 + W * TopBit(x0) == 2 * x0
    requires r1 + W * TopBit(x1) == 2 * x1 + TopBit(x0)
    requires r2 + W * TopBit(x2) == 2 * x2 + TopBit(x1)
    requires r3 + W * TopBit(x3) == 2 * x3 + TopBit(x2)
    requires r4 + W * TopBit(x4) == 2 * x4 + TopBit(x3)
    requires r5 + W * TopBit(x5) == 2 * x5 + TopBit(x4)
    ensures Num(r0, r1, r2, r3, r4, r5) + R * TopBit(x5) == 2 * Num(x0, x1, x2, x3, x4, x5)
  {
    CarryChain(x0, x1, x2, x3, x4, x5, x0, x1, x2, x3, x4, x5, r0, r1, r2, r3, r4, r5,
               TopBit(x0), TopBit(x1), TopBit(x2), TopBit(x3), TopBit(x4), TopBit(x5));
  }

  /** zero */
  method Zero(z: array<Word>)
    requires IsFe(z)
    modifies z
    ensures Val(z) == 0
  {
    z[0], z[1], z[2], z[3], z[4], z[5] := 0, 0, 0, 0, 0, 0;
  }

  /** set */
  method Set(z: array<Word>, x: array<Word>)
    requires IsFe(z) && IsFe(x)
    modifies z
    ensures z[..] == old(x[..]) && Val(z) == old(Val(x))
  {
    z[0] := x[0];
    z[1] := x[1];
    z[2] := x[2];
    z[3] := x[3];
    z[4] := x[4];
    z[5] := x[5];
    assert forall j :: 0 <= j < 6 ==> z[j] == old(x[j]);
  }
}
