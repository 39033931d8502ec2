/** The portable field arithmetic of bn256: four 64-bit words, carries read off the top
    bits, and products accumulated from 16 by 32 bit parts. */
module Gfp {
  import opened Words
  import opened Longs
  import opened Congruence

  const P0: Word := 0x3c208c16d87cfd47
  const P1: Word := 0x97816a916871ca8d
  const P2: Word := 0xb85045b68181585d
  const P3: Word := 0x30644e72e131a029
  const NP_WORDS: seq<Word> := [0x87d20782e4866389, 0x9ede7d651eca6ac9, 0xd8afcbd01833da80, 0xf57a22b791888c6b]

  // ----- Numbers of n words

  /** 2^(64 n) */
  function Radix(n: nat): (r: nat)
    ensures r >= 1
  {
    if n == 0 then 1 else W * Radix(n - 1)
  }

  /** The number that the first n words spell. */
  function Num(s: seq<int>, n: nat): (x: int)
    requires n <= |s|
  {
    if n == 0 then 0 else Num(s, n - 1) + s[n - 1] * Radix(n - 1)
  }

  lemma {:induction false} NumBound(s: seq<Word>, n: nat)
    requires n <= |s|
    ensures 0 <= Num(s, n) < Radix(n)
  {
    if n > 0 {
      NumBound(s, n - 1);
      TopWord(s[n - 1], Num(s, n - 1), Radix(n - 1));
    }
  }

  lemma TopWord(x: Word, low: int, r: nat)
    requires 0 <= low < r
    ensures 0 <= low + x * r < W * r
  {
    MulMonotone(r, x, W - 1);
  }

  lemma {:induction false} NumSame(s: seq<int>, t: seq<int>, n: nat)
    requires n <= |s| && n <= |t| && s[..n] == t[..n]
    ensures Num(s, n) == Num(t, n)
  {
    if n > 0 {
      assert s[..n][..n - 1] == s[..n - 1] && t[..n][..n - 1] == t[..n - 1];
      assert s[n - 1] == s[..n][n - 1] == t[..n][n - 1];
      NumSame(s, t, n - 1);
    }
  }

  lemma {:induction false} RadixAdd(m: nat, n: nat)
    ensures Radix(m + n) == Radix(m) * Radix(n)
  {
    if n > 0 {
      RadixAdd(m, n - 1);
    }
  }

  // ----- Carries and borrows

  predicate Top(x: Word) { x >= HALF }

  /** Bit 63 of x&y | (x|y)&^z, for z the low word of x + y + carry. */
  function CarryOf(x: Word, y: Word, z: Word): (c: Word)
    ensures c <= 1
  {
    if (Top(x) && Top(y)) || ((Top(x) || Top(y)) && !Top(z)) then 1 else 0
  }

  /** Bit 63 of y&^x | (y|^x)&z, for z the low word of x - y - borrow. */
  function BorrowOf(x: Word, y: Word, z: Word): (c: Word)
    ensures c <= 1
  {
    if (Top(y) && !Top(x)) || ((Top(y) || !Top(x)) && Top(z)) then 1 else 0
  }

  /** The top bit of a machine word. */
  lemma TopBit(b: Long)
    ensures Top(b as int) <==> b >> 63 == 1
    ensures b >> 63 <= 1
  {
  }

  lemma BitValue(b: Long)
    requires b <= 1
    ensures b as int == if b == 1 then 1 else 0
  {
  }

  /** On machine words the formula of gfpAdd is this carry. */
  lemma CarryFormula(x: Long, y: Long, z: Long)
    ensures (((x & y) | ((x | y) & !z)) >> 63) as int == CarryOf(x as int, y as int, z as int)
  {
    TopBit(x);
    TopBit(y);
    TopBit(z);
    CarryBits(x, y, z);
    BitValue(((x & y) | ((x | y) & !z)) >> 63);
  }

  lemma CarryBits(x: Long, y: Long, z: Long)
    ensures ((x & y) | ((x | y) & !z)) >> 63
         == if (x >> 63 == 1 && y >> 63 == 1) || ((x >> 63 == 1 || y >> 63 == 1) && z >> 63 != 1) then 1 else 0
  {
  }

  /** The formula of gfpSub is this borrow. */
  lemma BorrowFormula(x: Long, y: Long, z: Long)
    ensures (((y & !x) | ((y | !x) & z)) >> 63) as int == BorrowOf(x as int, y as int, z as int)
  {
    TopBit(x);
    TopBit(y);
    TopBit(z);
    BorrowBits(x, y, z);
    BitValue(((y & !x) | ((y | !x) & z)) >> 63);
  }

  lemma BorrowBits(x: Long, y: Long, z: Long)
    ensures ((y & !x) | ((y | !x) & z)) >> 63
         == if (y >> 63 == 1 && x >> 63 != 1) || ((y >> 63 == 1 || x >> 63 != 1) && z >> 63 == 1) then 1 else 0
  {
  }

  /** The mask of gfpCarry: all ones exactly for a borrow that no carry covers. */
  lemma MaskOf(borrow: Long, head: Long)
    requires borrow <= 1 && head <= 1
    ensures 0 - (borrow & !head) == if borrow == 1 && head == 0 then 0xFFFF_FFFF_FFFF_FFFF else 0
  {
    if borrow == 0 {
      assert (0 as bv64) & !head == 0;
    } else if head == 0 {
      assert (1 as bv64) & !(0 as bv64) == 1;
    } else {
      assert (1 as bv64) & !(1 as bv64) == 0;
    }
  }

  lemma Masked(a: Long, b: Long)
    ensures (a & 0xFFFF_FFFF_FFFF_FFFF) | (b & !0xFFFF_FFFF_FFFF_FFFF) == a && (a & 0) | (b & !0) == b
  {
  }

  /** So the masks choose the word of a for such a borrow and that of b otherwise. */
  lemma MasksSelect(a: Long, b: Long, borrow: Long, head: Long)
    requires borrow <= 1 && head <= 1
    ensures var carry := 0 - (borrow & !head);
            (a & carry) | (b & !carry) == if borrow == 1 && head == 0 then a else b
  {
    MaskOf(borrow, head);
    Masked(a, b);
    var carry := 0 - (borrow & !head);
    if borrow == 1 && head == 0 {
      assert carry == 0xFFFF_FFFF_FFFF_FFFF;
    } else {
      assert carry == 0;
    }
  }

  /** The carry formula is exact. */
  lemma CarryExact(x: Word, y: Word, c: Word, z: Word)
    requires c <= 1 && z == (x + y + c) % W
    ensures x + y + c == z + W * CarryOf(x, y, z)
  {
  }

  /** So is the borrow formula. */
  lemma BorrowExact(x: Word, y: Word, c: Word, z: Word)
    requires c <= 1 && z == (x - y - c) % W
    ensures x - y - c == z - W * BorrowOf(x, y, z)
  {
  }

  /** The carry loops. c may be a or b: a cell is written after its words were read. */
  method AddInto(c: array<Word>, a: array<Word>, b: array<Word>) returns (carry: Word)
    requires a.Length == b.Length == c.Length
    modifies c
    ensures carry <= 1
    ensures old(Num(a[..], a.Length)) + old(Num(b[..], b.Length)) == Num(c[..], c.Length) + carry * Radix(c.Length)
  {
    hide CarryOf, Radix;
    ghost var x, y := a[..], b[..];
    carry := 0;
    for i := 0 to a.Length
      invariant carry <= 1
      invariant forall k :: i <= k < a.Length ==> a[k] == x[k] && b[k] == y[k]
      invariant Num(x, i) + Num(y, i) == Num(c[..], i) + carry * Radix(i)
    {
      var ai, bi := a[i], b[i];
      var ci := (ai + bi + carry) % W;
      CarryExact(ai, bi, carry, ci);
      ghost var before := c[..];
      c[i] := ci;
      NumSame(before, c[..], i);
      ColumnAdds(ai, bi, carry, ci, CarryOf(ai, bi, ci), Radix(i));
      RadixStep(i);
      carry := CarryOf(ai, bi, ci);
    }
  }

  /** The borrow loops: the difference modulo the radix, and whether it wrapped. */
  method SubInto(c: array<Word>, a: array<Word>, b: array<Word>) returns (borrow: Word)
    requires a.Length == b.Length == c.Length
    modifies c
    ensures borrow <= 1
    ensures old(Num(a[..], a.Length)) - old(Num(b[..], b.Length)) == Num(c[..], c.Length) - borrow * Radix(c.Length)
  {
    hide BorrowOf, Radix;
    ghost var x, y := a[..], b[..];
    borrow := 0;
    for i := 0 to a.Length
      invariant borrow <= 1
      invariant forall k :: i <= k < a.Length ==> a[k] == x[k] && b[k] == y[k]
      invariant Num(x, i) - Num(y, i) == Num(c[..], i) - borrow * Radix(i)
    {
      var ai, bi := a[i], b[i];
      var ci := (ai - bi - borrow) % W;
      BorrowExact(ai, bi, borrow, ci);
      ghost var before := c[..];
      c[i] := ci;
      NumSame(before, c[..], i);
      ColumnSubtracts(ai, bi, borrow, ci, BorrowOf(ai, bi, ci), Radix(i));
      RadixStep(i);
      borrow := BorrowOf(ai, bi, ci);
    }
  }

  lemma RadixStep(i: nat)
    ensures Radix(i + 1) == W * Radix(i)
  {
  }

  lemma ColumnAdds(x: int, y: int, c: int, z: int, c': int, r: int)
    requires x + y + c == z + W * c'
    ensures x * r + y * r + c * r == z * r + c' * (W * r)
  {
    assert (x + y + c) * r == x * r + y * r + c * r;
    assert (z + W * c') * r == z * r + c' * (W * r);
  }

  lemma ColumnSubtracts(x: int, y: int, c: int, z: int, c': int, r: int)
    requires x - y - c == z - W * c'
    ensures x * r - y * r - c * r == z * r - c' * (W * r)
  {
    assert (x - y - c) * r == x * r - y * r - c * r;
    assert (z - W * c') * r == z * r - c' * (W * r);
  }

  // ----- Elements

  ghost const P: int := 21888242871839275222246405745257275088696311157297823662689037894645226208583

  ghost function Val(a: array<Word>): (x: int)
    requires a.Length == 4
    reads a
  {
    Num(a[..], 4)
  }

  lemma NumFour(s: seq<int>)
    requires |s| == 4
    ensures Num(s, 4) == s[0] + s[1] * W + s[2] * (W * W) + s[3] * (W * W * W)
  {
    assert Radix(0) == 1 && Radix(1) == W && Radix(2) == W * W && Radix(3) == W * W * W;
    assert Num(s, 1) == Num(s, 0) + s[0] * Radix(0);
    assert Num(s, 2) == Num(s, 1) + s[1] * Radix(1);
    assert Num(s, 3) == Num(s, 2) + s[2] * Radix(2);
  }

  lemma RadixFour()
    ensures Radix(4) == 0x1_0000_0000_0000_0000_0000_0000_0000_0000_0000_0000_0000_0000_0000_0000_0000_0000
  {
    assert Radix(1) == W && Radix(2) == W * W && Radix(3) == W * (W * W);
  }

  method Modulus() returns (p: array<Word>)
    ensures fresh(p) && p.Length == 4 && Val(p) == P
  {
    p := new Word[4] [P0, P1, P2, P3];
    assert p[..] == [P0, P1, P2, P3];
    NumFour(p[..]);
  }

  /** gfpCarry: brings a number below 2p, with its carry out of the words, below p. */
  method Carry(a: array<Word>, head: Word)
    requires a.Length == 4 && head <= 1 && Val(a) + head * Radix(4) < 2 * P
    modifies a
    ensures var x := old(Val(a)) + head * Radix(4); Val(a) == if x >= P then x - P else x
  {
    hide Num, Radix;
    RadixFour();
    var p := Modulus();
    var b := new Word[4];
    var carry := SubInto(b, a, p);
    NumBound(b[..], 4);
    NumBound(a[..], 4);
    if carry == 1 && head == 0 {
    } else {
      a[0], a[1], a[2], a[3] := b[0], b[1], b[2], b[3];
      assert a[..] == b[..];
    }
  }

  /** gfpNeg */
  method Neg(c: array<Word>, a: array<Word>)
    requires a.Length == 4 == c.Length && Val(a) < P
    modifies c
    ensures Val(c) == if old(Val(a)) == 0 then 0 else P - old(Val(a))
  {
    hide Num, Radix;
    RadixFour();
    NumBound(a[..], 4);
    var p := Modulus();
    var carry := SubInto(c, p, a);
    NumBound(c[..], 4);
    Carry(c, 0);
  }

  /** gfpAdd */
  method Add(c: array<Word>, a: array<Word>, b: array<Word>)
    requires a.Length == 4 == b.Length == c.Length && Val(a) < P && Val(b) < P
    modifies c
    ensures Val(c) == (old(Val(a)) + old(Val(b))) % P
  {
    hide Num, Radix;
    NumBound(a[..], 4);
    NumBound(b[..], 4);
    var carry := AddInto(c, a, b);
    Carry(c, carry);
  }

  /** gfpSub: p - b is added. */
  method Sub(c: array<Word>, a: array<Word>, b: array<Word>)
    requires a.Length == 4 == b.Length == c.Length && Val(a) < P && Val(b) < P
    modifies c
    ensures Val(c) == (old(Val(a)) - old(Val(b))) % P
  {
    hide Num, Radix;
    ghost var x, y := Val(a), Val(b);
    NumBound(a[..], 4);
    NumBound(b[..], 4);
    var p := Modulus();
    var t := new Word[4];
    var borrow := SubInto(t, p, b);
    NumBound(t[..], 4);
    NoBorrow(P, y, Val(t), borrow, Radix(4));
    var carry := AddInto(c, a, t);
    Carry(c, carry);
    Wrapped(x - y, P);
  }

  lemma NoBorrow(x: int, y: int, t: int, borrow: Word, r: int)
    requires borrow <= 1 && x - y == t - borrow * r && 0 <= t < r && y <= x
    ensures borrow == 0 && t == x - y
  {
  }

  lemma Wrapped(d: int, m: int)
    requires m > 0 && -m <= d < m
    ensures d % m == if d < 0 then d + m else d
  {
    RemainderUnique(if d < 0 then d + m else d, if d < 0 then -1 else 0, m, d);
  }

  // ----- Products from 16 by 32 bit parts

  const B16: int := 0x1_0000
  const B32: int := 0x1_0000_0000
  const B48: int := 0x1_0000_0000_0000
  /** What one pass can add to a cell, and what a cell can hold after sixteen. */
  const STEP: int := 0x2_0000_0000_0000
  const CELL: int := 0x20_0000_0000_0000

  /** The parts of a product of words: six cells, four of one word and two of the next. */
  lemma PartsMakeProduct(a0: int, a1: int, a2: int, a3: int, b0: int, b2: int)
    ensures (a0 * b0 + (a1 * b0) * B16 + (a2 * b0 + a0 * b2) * B32 + (a3 * b0 + a1 * b2) * B48)
          + (a2 * b2 + (a3 * b2) * B16) * W
         == (a0 + a1 * B16 + a2 * B32 + a3 * B48) * (b0 + b2 * B32)
  {
    assert (a0 + a1 * B16 + a2 * B32 + a3 * B48) * (b0 + b2 * B32)
        == (a0 + a1 * B16 + a2 * B32 + a3 * B48) * b0 + (a0 + a1 * B16 + a2 * B32 + a3 * B48) * (b2 * B32);
    Scaled(a0, a1, a2, a3, b0);
    Scaled(a0, a1, a2, a3, b2);
  }

  lemma Scaled(a0: int, a1: int, a2: int, a3: int, b: int)
    ensures (a0 + a1 * B16 + a2 * B32 + a3 * B48) * b == a0 * b + (a1 * b) * B16 + (a2 * b) * B32 + (a3 * b) * B48
    ensures (a0 + a1 * B16 + a2 * B32 + a3 * B48) * (b * B32)
         == (a0 * b) * B32 + (a1 * b) * B48 + (a2 * b) * W + (a3 * b) * (W * B16)
  {
  }

  lemma PartBound(a: int, b: int)
    requires 0 <= a < B16 && 0 <= b < B32
    ensures 0 <= a * b && 2 * (a * b) <= STEP
  {
    MulMonotone(a, b, B32);
    MulMonotone(B32, a, B16);
  }

  /** The weight of the four cells of word k. */
  function Quad(s: seq<int>, k: nat): (x: int)
    requires 4 * k + 3 < |s|
  {
    s[4 * k] + s[4 * k + 1] * B16 + s[4 * k + 2] * B32 + s[4 * k + 3] * B48
  }

  function Quads(s: seq<int>, n: nat): (q: seq<int>)
    requires 4 * n <= |s|
    ensures |q| == n && forall k :: 0 <= k < n ==> q[k] == Quad(s, k)
  {
    seq(n, k requires 0 <= k < n => Quad(s, k))
  }

  ghost predicate MakesProduct(lo: int, hi: int, x: int, y: int)
  {
    lo + hi * W == x * y
  }

  /** One pass: the parts of ai * bj go to the six cells from 4k on. */
  method AddParts(buff: array<Word>, k: nat, ai: Word, bj: Word, ghost bound: int) returns (ghost lo: int, ghost hi: int)
    requires 4 * k + 5 < buff.Length && bound + STEP <= CELL
    requires forall p :: 0 <= p < buff.Length ==> buff[p] <= bound
    modifies buff
    ensures forall p :: 0 <= p < buff.Length ==> buff[p] <= bound + STEP
    ensures MakesProduct(lo, hi, ai, bj)
    ensures forall p :: 0 <= p < buff.Length && !(4 * k <= p < 4 * k + 6) ==> buff[p] == old(buff[p])
    ensures buff[4 * k] + buff[4 * k + 1] * B16 + buff[4 * k + 2] * B32 + buff[4 * k + 3] * B48
         == old(buff[4 * k] + buff[4 * k + 1] * B16 + buff[4 * k + 2] * B32 + buff[4 * k + 3] * B48) + lo
    ensures buff[4 * k + 4] + buff[4 * k + 5] * B16 == old(buff[4 * k + 4] + buff[4 * k + 5] * B16) + hi
  {
    var p0, p1, p2, p3, p4, p5 := Partials(ai, bj);
    lo := p0 + p1 * B16 + p2 * B32 + p3 * B48;
    hi := p4 + p5 * B16;
    var off := 4 * k;
    buff[off] := buff[off] + p0;
    buff[off + 1] := buff[off + 1] + p1;
    buff[off + 2] := buff[off + 2] + p2;
    buff[off + 3] := buff[off + 3] + p3;
    buff[off + 4] := buff[off + 4] + p4;
    buff[off + 5] := buff[off + 5] + p5;
  }

  /** The six sums of products of parts. */
  method Partials(ai: Word, bj: Word) returns (p0: int, p1: int, p2: int, p3: int, p4: int, p5: int)
    ensures 0 <= p0 <= STEP && 0 <= p1 <= STEP && 0 <= p2 <= STEP
    ensures 0 <= p3 <= STEP && 0 <= p4 <= STEP && 0 <= p5 <= STEP
    ensures (p0 + p1 * B16 + p2 * B32 + p3 * B48) + (p4 + p5 * B16) * W == ai * bj
  {
    var a0, a1, a2, a3 := SplitWord(ai);
    var b0, b2 := bj % B32, bj / B32;
    PartBound(a0, b0);
    PartBound(a1, b0);
    PartBound(a2, b0);
    PartBound(a3, b0);
    PartBound(a0, b2);
    PartBound(a1, b2);
    PartBound(a2, b2);
    PartBound(a3, b2);
    PartsMakeProduct(a0, a1, a2, a3, b0, b2);
    return a0 * b0, a1 * b0, a2 * b0 + a0 * b2, a3 * b0 + a1 * b2, a2 * b2, a3 * b2;
  }

  method SplitWord(a: Word) returns (a0: Word, a1: Word, a2: Word, a3: Word)
    ensures a0 < B16 && a1 < B16 && a2 < B16 && a3 < B16
    ensures a == a0 + a1 * B16 + a2 * B32 + a3 * B48
  {
    a0, a1, a2, a3 := a % B16, a / B16 % B16, a / B32 % B16, a / B48;
  }

  lemma {:induction false} NumAdded(q: seq<int>, k: nat, d: int, m: nat)
    requires k < |q| && m <= |q|
    ensures Num(q[k := q[k] + d], m) == Num(q, m) + if k < m then d * Radix(k) else 0
  {
    if m > 0 {
      NumAdded(q, k, d, m - 1);
      if k == m - 1 {
        assert (q[k] + d) * Radix(k) == q[k] * Radix(k) + d * Radix(k);
      }
    }
  }

  /** The cells of a pass belong to word k and the one after it. */
  lemma PassChanges(s: seq<int>, t: seq<int>, n: nat, k: nat, lo: int, hi: int)
    requires |s| == |t| && 4 * n <= |s| && k < n && 4 * k + 5 < |s|
    requires forall p :: 0 <= p < |s| && !(4 * k <= p < 4 * k + 6) ==> s[p] == t[p]
    requires Quad(t, k) == Quad(s, k) + lo
    requires t[4 * k + 4] + t[4 * k + 5] * B16 == s[4 * k + 4] + s[4 * k + 5] * B16 + hi
    ensures var q := Quads(s, n)[k := Quads(s, n)[k] + lo];
            Quads(t, n) == if k + 1 < n then q[k + 1 := q[k + 1] + hi] else q
  {
    var q := Quads(s, n)[k := Quads(s, n)[k] + lo];
    var r := if k + 1 < n then q[k + 1 := q[k + 1] + hi] else q;
    forall j | 0 <= j < n
      ensures Quads(t, n)[j] == r[j]
    {
    }
  }

  lemma PassValue(lo: int, hi: int, r: int)
    ensures (lo + hi * W) * r == lo * r + hi * (W * r)
  {
  }

  /** A pass adds the product at word k, modulo n words. */
  lemma PassAdds(s: seq<int>, t: seq<int>, n: nat, k: nat, lo: int, hi: int)
    requires |s| == |t| && 4 * n <= |s| && k < n && 4 * k + 5 < |s|
    requires forall p :: 0 <= p < |s| && !(4 * k <= p < 4 * k + 6) ==> s[p] == t[p]
    requires Quad(t, k) == Quad(s, k) + lo
    requires t[4 * k + 4] + t[4 * k + 5] * B16 == s[4 * k + 4] + s[4 * k + 5] * B16 + hi
    ensures Cong(Num(Quads(t, n), n), Num(Quads(s, n), n) + (lo + hi * W) * Radix(k), Radix(n))
  {
    hide Cong, Radix, Quad, Num;
    PassChanges(s, t, n, k, lo, hi);
    var q := Quads(s, n);
    var q1 := q[k := q[k] + lo];
    NumAdded(q, k, lo, n);
    if k + 1 < n {
      NumAdded(q1, k + 1, hi, n);
    }
    RadixStep(k);
    PassCong(Num(q, n), Num(Quads(t, n), n), lo, hi, Radix(k), k + 1 < n, Radix(n));
  }

  lemma PassCong(x: int, y: int, lo: int, hi: int, r: int, inside: bool, m: int)
    requires m > 0 && (!inside ==> m == W * r)
    requires y == x + lo * r + if inside then hi * (W * r) else 0
    ensures Cong(y, x + (lo + hi * W) * r, m)
  {
    PassValue(lo, hi, r);
    if inside {
      CongRefl(y, m);
    } else {
      CongFrom(y, y + hi * m, -hi, m);
    }
  }

  lemma {:induction false} NumHigh(b: seq<int>, j: nat, m: nat) returns (h: int)
    requires j <= m <= |b|
    ensures Num(b, m) == Num(b, j) + Radix(j) * h
  {
    if j == m {
      h := 0;
    } else {
      var g := NumHigh(b, j, m - 1);
      RadixAdd(j, m - 1 - j);
      h := g + b[m - 1] * Radix(m - 1 - j);
      Regroup(b[m - 1], Radix(j), Radix(m - 1 - j), g);
    }
  }

  lemma Regroup(x: int, r: int, t: int, g: int)
    ensures r * g + x * (r * t) == r * (g + x * t)
  {
  }

  /** What the passes up to (i, j) have to add up to. */
  function Done(a: seq<int>, b: seq<int>, i: nat, j: nat): (x: int)
    requires i <= |a| && j <= |b| && (j > 0 ==> i < |a|)
  {
    Num(a, i) * Num(b, |b|) + if j == 0 then 0 else (a[i] * Radix(i)) * Num(b, j)
  }

  lemma DoneNext(a: seq<int>, b: seq<int>, i: nat, j: nat)
    requires i < |a| && j < |b|
    ensures Done(a, b, i, j + 1) == Done(a, b, i, j) + (a[i] * b[j]) * Radix(i + j)
  {
    RadixAdd(i, j);
    var x, y, n := a[i] * Radix(i), b[j] * Radix(j), Num(b, j);
    assert x * (n + y) == x * n + x * y;
    Interchange(a[i], Radix(i), b[j], Radix(j));
    assert j == 0 ==> x * n == 0;
  }

  lemma Interchange(a: int, r: int, b: int, t: int)
    ensures (a * r) * (b * t) == (a * b) * (r * t)
  {
    assert (a * r) * (b * t) == a * (r * (b * t));
    assert r * (b * t) == b * (r * t);
    assert a * (b * (r * t)) == (a * b) * (r * t);
  }

  /** A row is complete, or what it leaves out lies past the n words. */
  lemma RowDone(a: seq<int>, b: seq<int>, i: nat, j: nat, n: nat)
    requires i < |a| && j <= |b| && (j == |b| || i + j == n)
    ensures Cong(Done(a, b, i, j), Done(a, b, i + 1, 0), Radix(n))
  {
    var x, full := a[i] * Radix(i), Num(b, |b|);
    var h := NumHigh(b, j, |b|);
    RowValue(Num(a, i), x, full, Num(b, j), Radix(j) * h);
    assert Num(a, i + 1) == Num(a, i) + x;
    assert j == 0 ==> x * Num(b, 0) == 0;
    assert Done(a, b, i, j) == Num(a, i) * full + x * Num(b, j);
    hide Cong, Radix, Num;
    if j == |b| {
      CongRefl(Done(a, b, i, j), Radix(n));
    } else {
      RadixAdd(i, j);
      PastTheEnd(a[i], Radix(i), Radix(j), h);
      CongFrom(Done(a, b, i, j), Done(a, b, i + 1, 0), -(a[i] * h), Radix(n));
    }
  }

  lemma RowValue(m: int, x: int, full: int, low: int, high: int)
    requires full == low + high
    ensures (m + x) * full == m * full + x * low + x * high
  {
  }

  lemma PastTheEnd(a: int, r: int, t: int, h: int)
    ensures (a * r) * (t * h) == (a * h) * (r * t)
    ensures -(a * h) * (r * t) == -((a * h) * (r * t))
  {
    Interchange(a, r, h, t);
  }

  lemma PassDone(s: seq<int>, t: seq<int>, a: seq<int>, b: seq<int>, n: nat, i: nat, j: nat, lo: int, hi: int)
    requires |s| == |t| && 4 * n <= |s| && i + j < n && 4 * (i + j) + 5 < |s|
    requires forall p :: 0 <= p < |s| && !(4 * (i + j) <= p < 4 * (i + j) + 6) ==> s[p] == t[p]
    requires Quad(t, i + j) == Quad(s, i + j) + lo
    requires t[4 * (i + j) + 4] + t[4 * (i + j) + 5] * B16 == s[4 * (i + j) + 4] + s[4 * (i + j) + 5] * B16 + hi
    requires i < |a| && j < |b| && MakesProduct(lo, hi, a[i], b[j])
    requires Cong(Num(Quads(s, n), n), Done(a, b, i, j), Radix(n))
    ensures Cong(Num(Quads(t, n), n), Done(a, b, i, j + 1), Radix(n))
  {
    hide Cong, Num, Radix, Quads, Done;
    PassAdds(s, t, n, i + j, lo, hi);
    DoneNext(a, b, i, j);
    AddCong(Num(Quads(t, n), n), Num(Quads(s, n), n), Done(a, b, i, j), (a[i] * b[j]) * Radix(i + j), Radix(n));
  }

  /** The cells of a buffer are sized for n words. */
  ghost predicate Fits(buff: array<Word>, n: nat)
  {
    (n == 4 && buff.Length == 18) || (n == 8 && buff.Length == 32)
  }

  ghost predicate Bounded(buff: array<Word>, passes: int)
    reads buff
  {
    forall p :: 0 <= p < buff.Length ==> buff[p] <= passes * STEP
  }

  /** One pass of the inner loop. */
  method AccumulateOne(buff: array<Word>, a: seq<Word>, b: seq<Word>, i: nat, j: nat, n: nat)
    requires |a| == 4 == |b| && Fits(buff, n) && i < 4 && j < 4 && i + j < n && Bounded(buff, 4 * i + j)
    requires Cong(Num(Quads(buff[..], n), n), Done(a, b, i, j), Radix(n))
    modifies buff
    ensures Bounded(buff, 4 * i + j + 1)
    ensures Cong(Num(Quads(buff[..], n), n), Done(a, b, i, j + 1), Radix(n))
  {
    hide Cong, Num, Radix, Quads, Done, MakesProduct;
    ghost var s := buff[..];
    ghost var lo, hi := AddParts(buff, i + j, a[i], b[j], (4 * i + j) * STEP);
    ghost var t := buff[..];
    assert Quad(t, i + j) == Quad(s, i + j) + lo;
    hide Quad;
    PassDone(s, t, a, b, n, i, j, lo, hi);
  }

  /** The inner loop of mul and, stopping where i + j passes 3, of halfMul. */
  method AccumulateRow(buff: array<Word>, a: seq<Word>, b: seq<Word>, i: nat, n: nat)
    requires |a| == 4 == |b| && Fits(buff, n) && i < 4 && Bounded(buff, 4 * i)
    requires Cong(Num(Quads(buff[..], n), n), Done(a, b, i, 0), Radix(n))
    modifies buff
    ensures Bounded(buff, 4 * i + 4)
    ensures Cong(Num(Quads(buff[..], n), n), Done(a, b, i + 1, 0), Radix(n))
  {
    hide Cong, Num, Radix, Quads, Done, MakesProduct;
    var j := 0;
    while j < 4 && i + j < n
      invariant 0 <= j <= 4 && i + j <= n && Bounded(buff, 4 * i + j)
      invariant Cong(Num(Quads(buff[..], n), n), Done(a, b, i, j), Radix(n))
    {
      AccumulateOne(buff, a, b, i, j, n);
      j := j + 1;
    }
    RowDone(a, b, i, j, n);
    CongTrans(Num(Quads(buff[..], n), n), Done(a, b, i, j), Done(a, b, i + 1, 0), Radix(n));
  }

  /** The double loop. */
  method Accumulate(buff: array<Word>, a: seq<Word>, b: seq<Word>, n: nat)
    requires |a| == 4 == |b| && Fits(buff, n)
    requires forall p :: 0 <= p < buff.Length ==> buff[p] == 0
    modifies buff
    ensures forall p :: 0 <= p < buff.Length ==> buff[p] <= CELL
    ensures Cong(Num(Quads(buff[..], n), n), Num(a, 4) * Num(b, 4), Radix(n))
  {
    hide Cong, Num, Radix, Quads, Done;
    StartsEmpty(buff[..], a, b, n);
    for i := 0 to 4
      invariant Bounded(buff, 4 * i)
      invariant Cong(Num(Quads(buff[..], n), n), Done(a, b, i, 0), Radix(n))
    {
      AccumulateRow(buff, a, b, i, n);
    }
    AllDone(a, b);
  }

  lemma StartsEmpty(s: seq<int>, a: seq<int>, b: seq<int>, n: nat)
    requires 4 * n <= |s| && forall p :: 0 <= p < |s| ==> s[p] == 0
    ensures Cong(Num(Quads(s, n), n), Done(a, b, 0, 0), Radix(n))
  {
    NumZeros(Quads(s, n), n);
    CongRefl(0, Radix(n));
  }

  lemma {:induction false} NumZeros(q: seq<int>, n: nat)
    requires n <= |q| && forall k :: 0 <= k < |q| ==> q[k] == 0
    ensures Num(q, n) == 0
  {
    if n > 0 {
      NumZeros(q, n - 1);
    }
  }

  lemma AllDone(a: seq<int>, b: seq<int>)
    requires |a| == 4 == |b|
    ensures Done(a, b, 4, 0) == Num(a, 4) * Num(b, 4)
  {
  }

  lemma AddCong(z: int, y: int, x: int, d: int, m: int)
    requires m > 0 && Cong(y, x, m) && Cong(z, y + d, m)
    ensures Cong(z, x + d, m)
  {
    hide Cong;
    CongRefl(d, m);
    CongAdd(y, x, d, d, m);
    CongTrans(z, y + d, x + d, m);
  }

  // ----- Folding the cells into words

  function Column(s: seq<int>, r: nat, n: nat): (c: seq<int>)
    requires r < 4 && 4 * n <= |s|
    ensures |c| == n && forall j :: 0 <= j < n ==> c[j] == s[4 * j + r]
  {
    seq(n, j requires 0 <= j < n => s[4 * j + r])
  }

  /** 2^(16 i), and what is left of a word above it. */
  function Shift(i: nat): (s: int)
  {
    if i == 0 then 1 else if i == 1 then B16 else if i == 2 then B32 else B48
  }

  function Above(i: nat): (t: int)
    ensures t > 0
  {
    if i == 1 then B48 else if i == 2 then B32 else B16
  }

  /** The words of column 0 with the first columns up to i added in. */
  function Folded(s: seq<int>, i: nat, n: nat): (x: int)
    requires 4 * n <= |s| && i <= 4
  {
    if i == 0 then 0 else Folded(s, i - 1, n) + Shift(i - 1) * Num(Column(s, i - 1, n), n)
  }

  lemma {:induction false} QuadsAreColumns(s: seq<int>, n: nat, m: nat)
    requires 4 * n <= |s| && m <= n
    ensures Num(Quads(s, n), m) == Num(Column(s, 0, n), m) + B16 * Num(Column(s, 1, n), m)
                                 + B32 * Num(Column(s, 2, n), m) + B48 * Num(Column(s, 3, n), m)
  {
    if m > 0 {
      QuadsAreColumns(s, n, m - 1);
      QuadTimes(s[4 * (m - 1)], s[4 * (m - 1) + 1], s[4 * (m - 1) + 2], s[4 * (m - 1) + 3], Radix(m - 1));
    }
  }

  lemma QuadTimes(x0: int, x1: int, x2: int, x3: int, r: int)
    ensures (x0 + x1 * B16 + x2 * B32 + x3 * B48) * r == x0 * r + B16 * (x1 * r) + B32 * (x2 * r) + B48 * (x3 * r)
  {
  }

  lemma FoldedAll(s: seq<int>, n: nat)
    requires 4 * n <= |s|
    ensures Folded(s, 4, n) == Num(Quads(s, n), n)
  {
    QuadsAreColumns(s, n, n);
    hide Num;
    assert Folded(s, 1, n) == Folded(s, 0, n) + Num(Column(s, 0, n), n);
    assert Folded(s, 2, n) == Folded(s, 1, n) + B16 * Num(Column(s, 1, n), n);
    assert Folded(s, 3, n) == Folded(s, 2, n) + B32 * Num(Column(s, 2, n), n);
  }

  /** Shifting a cell: what stays in the word and what moves to the next. */
  lemma ShiftExact(v: Word, i: nat)
    requires 1 <= i <= 3
    ensures v * Shift(i) == (v * Shift(i)) % W + W * (v / Above(i))
    ensures (v * Shift(i)) % W <= W - Shift(i)
    ensures v <= CELL ==> v / Above(i) < Shift(i)
  {
    var s, t := Shift(i), Above(i);
    assert s * t == W;
    assert v == t * (v / t) + v % t;
    assert (v % t) * s <= (t - 1) * s == W - s;
    RemainderUnique((v % t) * s, v / t, W, v * s);
  }

  ghost predicate CellSum(x: int, v: int, t: int, c: int, z: int, c': int)
  {
    x + v * t + c == z + W * c'
  }

  /** One cell: the word it is added to, and what goes on to the next. */
  method FoldCell(x: Word, v: Word, i: nat, head: int, carry: Word) returns (z: Word, nextHead: int, nextCarry: Word)
    requires 1 <= i <= 3 && v <= CELL && 0 <= head < Shift(i) && carry <= 1
    ensures 0 <= nextHead < Shift(i) && nextCarry <= 1
    ensures CellSum(x, v, Shift(i), carry + head, z, nextCarry + nextHead)
  {
    hide CarryOf, Shift, Above;
    ShiftExact(v, i);
    var y: Word := (v * Shift(i)) % W + head;
    z := (x + y + carry) % W;
    CarryExact(x, y, carry, z);
    nextCarry := CarryOf(x, y, z);
    nextHead := v / Above(i);
  }

  /** The words so far and what is carried out of them make up both columns. */
  ghost predicate FoldsTo(s: seq<int>, c: int, c0: seq<int>, ci: seq<int>, t: int, j: nat)
    requires j <= |s| && j <= |c0| && j <= |ci|
  {
    Num(s, j) + c * Radix(j) == Num(c0, j) + t * Num(ci, j)
  }

  lemma FoldsToStart(s: seq<int>, c0: seq<int>, ci: seq<int>, t: int)
    ensures FoldsTo(s, 0, c0, ci, t, 0)
  {
    assert t * Num(ci, 0) == 0;
  }

  lemma FoldsToNext(s: seq<int>, s': seq<int>, c: int, c': int, c0: seq<int>, ci: seq<int>, t: int, j: nat)
    requires j < |s| == |s'| && j < |c0| && j < |ci| && FoldsTo(s, c, c0, ci, t, j) && s'[..j] == s[..j]
    requires CellSum(c0[j], ci[j], t, c, s'[j], c')
    ensures FoldsTo(s', c', c0, ci, t, j + 1)
  {
    NumSame(s, s', j);
    RadixStep(j);
    hide Radix;
    FoldStep(c0[j], ci[j] * t, c, s'[j], c', Radix(j));
    Times(t, ci[j], Radix(j), Num(ci, j));
  }

  lemma FoldsToEnd(s: seq<int>, c: int, c0: seq<int>, ci: seq<int>, t: int, n: nat)
    requires n <= |s| && n <= |c0| && n <= |ci| && FoldsTo(s, c, c0, ci, t, n)
    ensures Cong(Num(s, n), Num(c0, n) + t * Num(ci, n), Radix(n))
  {
    hide Num, Radix;
    assert (-c) * Radix(n) == -(c * Radix(n));
    CongFrom(Num(s, n), Num(c0, n) + t * Num(ci, n), -c, Radix(n));
  }

  lemma Times(s: int, v: int, r: int, m: int)
    ensures s * (m + v * r) == s * m + (v * s) * r
  {
  }

  lemma FoldStep(x: int, vs: int, c: int, z: int, c': int, r: int)
    requires x + vs + c == z + W * c'
    ensures x * r + vs * r + c * r == z * r + c' * (W * r)
  {
    assert (x + vs + c) * r == x * r + vs * r + c * r;
    assert (z + W * c') * r == z * r + c' * (W * r);
  }

  lemma ShiftPositive(i: nat)
    ensures Shift(i) > 0
  {
  }

  /** Only the first j words of column 0 may differ. */
  ghost predicate SameBut(s: seq<int>, t: seq<int>, j: nat)
  {
    |s| == |t| && forall p :: 0 <= p < |s| && (p % 4 != 0 || p >= 4 * j) ==> s[p] == t[p]
  }

  lemma SameButReads(s: seq<int>, t: seq<int>, j: nat, i: nat, n: nat)
    requires SameBut(s, t, j) && 1 <= i < 4 && j < n && 4 * n <= |s|
    ensures t[4 * j] == Column(s, 0, n)[j] && t[4 * j + i] == s[4 * j + i] == Column(s, i, n)[j]
  {
    assert (4 * j + i) % 4 == i;
  }

  lemma SameButNext(s: seq<int>, t: seq<int>, j: nat, z: int, n: nat)
    requires SameBut(s, t, j) && j < n && 4 * n <= |s|
    ensures SameBut(s, t[4 * j := z], j + 1)
    ensures Column(t[4 * j := z], 0, n) == Column(t, 0, n)[j := z]
  {
  }

  /** One pass of the inner loop. */
  method FoldAt(buff: array<Word>, i: nat, j: nat, n: nat, head: int, carry: Word, ghost s: seq<int>)
    returns (nextHead: int, nextCarry: Word)
    requires 1 <= i <= 3 && j < n && 4 * n <= buff.Length == |s| && SameBut(s, buff[..], j)
    requires 0 <= head < Shift(i) && carry <= 1 && Column(s, i, n)[j] <= CELL
    requires FoldsTo(Column(buff[..], 0, n), carry + head, Column(s, 0, n), Column(s, i, n), Shift(i), j)
    modifies buff
    ensures SameBut(s, buff[..], j + 1) && 0 <= nextHead < Shift(i) && nextCarry <= 1
    ensures FoldsTo(Column(buff[..], 0, n), nextCarry + nextHead, Column(s, 0, n), Column(s, i, n), Shift(i), j + 1)
  {
    hide Num, Radix, Shift, FoldsTo, SameBut, Column, CellSum;
    ghost var t := buff[..];
    SameButReads(s, t, j, i, n);
    var z;
    z, nextHead, nextCarry := FoldCell(buff[4 * j], buff[4 * j + i], i, head, carry);
    buff[4 * j] := z;
    assert buff[..] == t[4 * j := z];
    SameButNext(s, t, j, z, n);
    FoldsToNext(Column(t, 0, n), Column(buff[..], 0, n), carry + head, nextCarry + nextHead,
                Column(s, 0, n), Column(s, i, n), Shift(i), j);
  }

  lemma SmallColumn(s: seq<int>, i: nat, n: nat)
    requires 1 <= i < 4 && 4 * n <= |s| && forall p :: 0 <= p < |s| && p % 4 != 0 ==> s[p] <= CELL
    ensures forall j :: 0 <= j < n ==> Column(s, i, n)[j] <= CELL
  {
    forall j | 0 <= j < n
      ensures Column(s, i, n)[j] <= CELL
    {
      assert (4 * j + i) % 4 == i;
    }
  }

  lemma SameButStart(s: seq<int>)
    ensures SameBut(s, s, 0)
  {
  }

  /** One column is shifted and added to the words, with both kinds of carries. */
  method FoldColumn(buff: array<Word>, i: nat, n: nat)
    requires 1 <= i <= 3 && 4 * n <= buff.Length
    requires forall p :: 0 <= p < buff.Length && p % 4 != 0 ==> buff[p] <= CELL
    modifies buff
    ensures SameBut(old(buff[..]), buff[..], n)
    ensures Cong(Num(Column(buff[..], 0, n), n),
                 old(Num(Column(buff[..], 0, n), n)) + Shift(i) * old(Num(Column(buff[..], i, n), n)), Radix(n))
  {
    hide Num, Radix, Shift, Cong, FoldsTo, SameBut, Column;
    ghost var s := buff[..];
    SmallColumn(s, i, n);
    var head: int, carry: Word := 0, 0;
    ShiftPositive(i);
    SameButStart(s);
    FoldsToStart(Column(s, 0, n), Column(s, 0, n), Column(s, i, n), Shift(i));
    for j := 0 to n
      invariant SameBut(s, buff[..], j) && 0 <= head < Shift(i) && carry <= 1
      invariant FoldsTo(Column(buff[..], 0, n), carry + head, Column(s, 0, n), Column(s, i, n), Shift(i), j)
    {
      head, carry := FoldAt(buff, i, j, n, head, carry, s);
    }
    FoldsToEnd(Column(buff[..], 0, n), carry + head, Column(s, 0, n), Column(s, i, n), Shift(i), n);
  }

  /** mul for n = 8 and halfMul for n = 4: the product modulo n words. */
  method MulWords(a: seq<Word>, b: seq<Word>, n: nat) returns (r: seq<Word>)
    requires |a| == 4 == |b| && (n == 4 || n == 8)
    ensures |r| == n && Num(r, n) == (Num(a, 4) * Num(b, 4)) % Radix(n)
  {
    hide Num, Radix, Quads, Column, Folded, Cong;
    var buff := new Word[if n == 4 then 18 else 32](_ => 0);
    Accumulate(buff, a, b, n);
    ghost var s, ab := buff[..], Num(a, 4) * Num(b, 4);
    FoldedFirst(s, n);
    for i := 1 to 4
      invariant |s| == buff.Length && forall p :: 0 <= p < buff.Length && p % 4 != 0 ==> buff[p] == s[p]
      invariant Cong(Num(Column(buff[..], 0, n), n), Folded(s, i, n), Radix(n))
    {
      ghost var before := Num(Column(buff[..], 0, n), n);
      assert Column(buff[..], i, n) == Column(s, i, n);
      FoldColumn(buff, i, n);
      FoldedNext(s, i, n);
      AddCong(Num(Column(buff[..], 0, n), n), before, Folded(s, i, n), Shift(i) * Num(Column(s, i, n), n), Radix(n));
    }
    FoldedAll(s, n);
    r := seq(n, j requires 0 <= j < n reads buff => buff[4 * j]);
    assert r == Column(buff[..], 0, n);
    CongTrans(Num(r, n), Num(Quads(s, n), n), ab, Radix(n));
    NumBound(r, n);
    ReducedIs(Num(r, n), ab, Radix(n));
  }

  lemma FoldedFirst(s: seq<int>, n: nat)
    requires 4 * n <= |s|
    ensures Cong(Num(Column(s, 0, n), n), Folded(s, 1, n), Radix(n))
  {
    assert Folded(s, 1, n) == Folded(s, 0, n) + 1 * Num(Column(s, 0, n), n);
    CongRefl(Num(Column(s, 0, n), n), Radix(n));
  }

  lemma FoldedNext(s: seq<int>, i: nat, n: nat)
    requires 4 * n <= |s| && i < 4
    ensures Folded(s, i + 1, n) == Folded(s, i, n) + Shift(i) * Num(Column(s, i, n), n)
  {
  }

  lemma ReducedIs(x: int, y: int, m: int)
    requires m > 0 && Cong(x, y, m) && 0 <= x < m
    ensures x == y % m
  {
    hide Cong;
    CongMod(y, m);
    CongSym(y % m, y, m);
    CongTrans(x, y, y % m, m);
    CongReduced(x, y % m, m);
  }

  // ----- gfpMul

  ghost const NP: int := 0xf57a22b791888c6bd8afcbd01833da809ede7d651eca6ac987d20782e4866389

  lemma Constants()
    ensures Num([P0, P1, P2, P3], 4) == P && Num(NP_WORDS, 4) == NP
    ensures P * NP + 1 == 20988524275117001072002809824448087578619730785600314334253784976379291040311 * Radix(4)
    ensures 0 < P < Radix(4)
  {
    NumFour([P0, P1, P2, P3]);
    NumFour(NP_WORDS);
    RadixFour();
  }

  /** Adding m times p clears what lies below r. */
  lemma LowClears(x: int, low: int, m: int, p: int, np: int, r: int, w: int)
    requires r > 0 && p * np + 1 == w * r && Cong(low, x, r) && m == (low * np) % r
    ensures Cong(x + m * p, 0, r)
  {
    hide Cong;
    CongMod(low * np, r);
    CongMul(low, x, np, r);
    CongTrans(m, low * np, x * np, r);
    CongMul(m, x * np, p, r);
    CongRefl(x, r);
    CongAdd(x, x, m * p, (x * np) * p, r);
    assert x + (x * np) * p == (x * w) * r by { Factor(x, np, p, w, r); }
    CongFrom(x + (x * np) * p, 0, x * w, r);
    CongTrans(x + m * p, x + (x * np) * p, 0, r);
  }

  lemma Factor(x: int, np: int, p: int, w: int, r: int)
    requires p * np + 1 == w * r
    ensures x + (x * np) * p == (x * w) * r
  {
    assert (x * np) * p == x * (p * np);
    assert x + x * (p * np) == x * (p * np + 1);
    assert x * (w * r) == (x * w) * r;
  }

  /** The words above the first k. */
  lemma {:induction false} NumSplit(s: seq<int>, k: nat, n: nat)
    requires k + n <= |s|
    ensures Num(s, k + n) == Num(s, k) + Radix(k) * Num(s[k..], n)
  {
    if n == 0 {
      assert Radix(k) * Num(s[k..], 0) == 0;
    } else {
      NumSplit(s, k, n - 1);
      RadixAdd(k, n - 1);
      assert s[k..][n - 1] == s[k + n - 1];
      Regroup(s[k + n - 1], Radix(k), Radix(n - 1), Num(s[k..], n - 1));
    }
  }

  /** The high words of a sum whose low words vanish, and how large they can be. */
  lemma HighPart(total: int, low: int, high: int, carry: int, x: int, m: int, p: int, r: int)
    requires total == x + m * p && total == low + r * high + carry * (r * r)
    requires 0 <= low < r && 0 <= m < r && 0 <= x < p * p && 0 < p < r && Cong(total, 0, r)
    ensures r * (high + carry * r) == x + m * p && high + carry * r < 2 * p
  {
    var y := high + carry * r;
    HighWords(total, low, high, carry, r);
    hide Cong;
    CongFrom(total, low, y, r);
    CongSym(total, low, r);
    CongTrans(low, total, 0, r);
    CongReduced(low, 0, r);
    BelowTwice(x, m, p, y, r);
  }

  lemma HighWords(total: int, low: int, high: int, carry: int, r: int)
    requires total == low + r * high + carry * (r * r)
    ensures total == low + r * (high + carry * r) == low + (high + carry * r) * r
  {
    assert carry * (r * r) == r * (carry * r);
  }

  lemma BelowTwice(x: int, m: int, p: int, y: int, r: int)
    requires 0 <= m < r && 0 <= x < p * p && 0 < p < r && r * y == x + m * p
    ensures y < 2 * p
  {
    MulMonotone(p, m, r);
    MulMonotone(p, p, r);
    assert r * (2 * p) == p * r + p * r;
    if y >= 2 * p {
      MulMonotone(r, 2 * p, y);
    }
  }

  /** One subtraction of p does not change the residue. */
  lemma SameResidue(z: int, y: int, x: int, m: int, p: int, r: int)
    requires p > 0 && r * y == x + m * p && (z == y || z == y - p)
    ensures Cong(z * r, x, p)
  {
    var k := if z == y then m else m - r;
    assert z == y - p ==> z * r == r * y - r * p;
    assert k * p == if z == y then m * p else m * p - r * p;
    CongFrom(z * r, x, k, p);
  }

  /** Four words by four fit into eight. */
  lemma ProductFits(x: int, y: int, r: int)
    requires 0 <= x < r && 0 <= y < r
    ensures 0 <= x * y < r * r && (x * y) % (r * r) == x * y
  {
    MulMonotone(x, y, r);
    MulMonotone(r, x, r);
    assert x * y < r * r;
    RemainderUnique(x * y, 0, r * r, x * y);
  }

  lemma SquareBound(x: int, y: int, p: int)
    requires 0 <= x < p && 0 <= y < p
    ensures 0 <= x * y < p * p
  {
    MulMonotone(x, y, p);
    MulMonotone(p, x, p);
  }

  /** The sum of gfpMul: eight words and a carry, of which the upper half is kept. */
  method Reduce(T: seq<Word>, m: seq<Word>, t: seq<Word>) returns (high: seq<Word>, carry: Word)
    requires |T| == 8 == |t| && |m| == 4
    requires Num(T, 8) < P * P && Num(t, 8) == Num(m, 4) * P && Cong(Num(T, 8) + Num(m, 4) * P, 0, Radix(4))
    ensures |high| == 4 && carry <= 1 && Num(high, 4) + carry * Radix(4) < 2 * P
    ensures Radix(4) * (Num(high, 4) + carry * Radix(4)) == Num(T, 8) + Num(m, 4) * P
  {
    hide Num, Radix, Cong;
    var z, u := new Word[8](i requires 0 <= i < 8 => T[i]), new Word[8](i requires 0 <= i < 8 => t[i]);
    assert z[..] == T && u[..] == t;
    carry := AddInto(z, z, u);
    ghost var s := z[..];
    high := z[4..];
    NumSplit(s, 4, 4);
    RadixAdd(4, 4);
    NumBound(T, 8);
    NumBound(m, 4);
    NumBound(s, 4);
    Constants();
    HighPart(Num(T, 8) + Num(m, 4) * P, Num(s, 4), Num(high, 4), carry, Num(T, 8), Num(m, 4), P, Radix(4));
  }

  /** gfpMul: the reduced z with z * 2^256 = a * b modulo p. */
  method Mul(c: array<Word>, a: array<Word>, b: array<Word>)
    requires a.Length == 4 == b.Length == c.Length && Val(a) < P && Val(b) < P
    modifies c
    ensures 0 <= Val(c) < P && Cong(Val(c) * Radix(4), old(Val(a)) * old(Val(b)), P)
  {
    hide Num, Radix, Cong;
    ghost var x := Val(a) * Val(b);
    NumBound(a[..], 4);
    NumBound(b[..], 4);
    Constants();
    RadixAdd(4, 4);
    ProductFits(Val(a), Val(b), Radix(4));
    SquareBound(Val(a), Val(b), P);
    var T := MulWords(a[..], b[..], 8);
    var m := MulWords(T[..4], NP_WORDS, 4);
    var t := MulWords(m, [P0, P1, P2, P3], 8);
    NumBound(m, 4);
    ProductFits(Num(m, 4), P, Radix(4));
    LowWords(T);
    LowClears(x, Num(T[..4], 4), Num(m, 4), P, NP, Radix(4),
              20988524275117001072002809824448087578619730785600314334253784976379291040311);
    var high, carry := Reduce(T, m, t);
    c[0], c[1], c[2], c[3] := high[0], high[1], high[2], high[3];
    assert c[..] == high;
    Carry(c, carry);
    SameResidue(Val(c), Num(high, 4) + carry * Radix(4), x, Num(m, 4), P, Radix(4));
    NumBound(c[..], 4);
  }

  lemma LowWords(s: seq<int>)
    requires |s| == 8
    ensures Cong(Num(s[..4], 4), Num(s, 8), Radix(4))
  {
    NumSplit(s, 4, 4);
    NumSame(s[..4], s, 4);
    hide Num, Radix;
    var h := Num(s[4..], 4);
    assert (-h) * Radix(4) == -(Radix(4) * h);
    CongFrom(Num(s[..4], 4), Num(s, 8), -h, Radix(4));
  }
}
