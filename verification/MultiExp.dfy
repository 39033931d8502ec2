/** Bucket (Pippenger) multi-exponentiation of BLS12-381's G1 against the plain sum. */
module MultiExp {
  import opened Wrappers
  import opened Words
  import opened Congruence
  import opened Powers
  import opened Groups

  /** The bit length of the group order. */
  const NUM_BITS: nat := 255

  /** MulScalar: double-and-add from the low bit. */
  method MulScalar<G(!new)>(g: Group<G>, p: G, e: nat) returns (q: G)
    requires Laws(g)
    ensures q == Times(g, e, p)
  {
    hide Laws, Times, Bit;
    q := g.zero;
    var n := p;
    var l := BitLen(e);
    Unit(g, Times(g, e, p));
    for i := 0 to l
      invariant g.add(q, Times(g, Shr(e, i), n)) == Times(g, e, p)
    {
      LowBit(g, Shr(e, i + 1), Bit(e, i), n, q);
      if Bit(e, i) == 1 {
        q := g.add(q, n);
      }
      n := g.double(n);
    }
    ShrTop(e);
    TimesOne(g, n);
    Unit(g, q);
  }

  /** q + (2a + b)n == (q + bn) + a(2n) */
  lemma LowBit<G(!new)>(g: Group<G>, a: nat, b: nat, n: G, q: G)
    requires Laws(g) && b <= 1
    ensures g.add(q, Times(g, 2 * a + b, n)) == g.add(if b == 1 then g.add(q, n) else q, Times(g, a, g.double(n)))
  {
    hide Laws;
    Doubles(g, n);
    TimesSum(g, a, n, n);
    TimesBit(g, a, b, n);
    var d := Times(g, a, g.double(n));
    Doubles(g, Times(g, a, n));
    Comm(g, d, n);
    Assoc(g, q, n, d);
  }

  // ----- The sum

  /** e[0] p[0] + e[1] p[1] + ... over the first m terms */
  function Sum<G>(g: Group<G>, p: seq<G>, e: seq<nat>, m: nat): (r: G)
    requires m <= |p| && m <= |e|
  {
    if m == 0 then g.zero else g.add(Sum(g, p, e, m - 1), Times(g, e[m - 1], p[m - 1]))
  }

  lemma SumSnoc<G>(g: Group<G>, p: seq<G>, e: seq<nat>, m: nat)
    requires m < |p| && m < |e|
    ensures Sum(g, p, e, m + 1) == g.add(Sum(g, p, e, m), Times(g, e[m], p[m]))
  {
  }

  /** b a + d, term by term */
  lemma {:induction false} SumLinear<G(!new)>(g: Group<G>, p: seq<G>, e: seq<nat>, a: seq<nat>, d: seq<nat>, b: nat, m: nat)
    requires Laws(g) && m <= |p| == |e| == |a| == |d|
    requires forall i :: 0 <= i < |e| ==> e[i] == b * a[i] + d[i]
    ensures Sum(g, p, e, m) == g.add(Times(g, b, Sum(g, p, a, m)), Sum(g, p, d, m))
  {
    hide Laws, Times;
    if m == 0 {
      TimesZero(g, b);
      Unit(g, g.zero);
    } else {
      SumLinear(g, p, e, a, d, b, m - 1);
      var q, x, y := p[m - 1], a[m - 1], d[m - 1];
      TimesMul(g, b, x, q);
      TimesAdd(g, b * x, y, q);
      TimesSum(g, b, Sum(g, p, a, m - 1), Times(g, x, q));
      Exchange(g, Times(g, b, Sum(g, p, a, m - 1)), Sum(g, p, d, m - 1), Times(g, b * x, q), Times(g, y, q));
    }
  }

  lemma {:induction false} SumZeros<G(!new)>(g: Group<G>, p: seq<G>, e: seq<nat>, m: nat)
    requires Laws(g) && m <= |p| == |e| && forall i :: 0 <= i < |e| ==> e[i] == 0
    ensures Sum(g, p, e, m) == g.zero
  {
    hide Laws;
    if m > 0 {
      SumZeros(g, p, e, m - 1);
      TimesOne(g, p[m - 1]);
      Unit(g, g.zero);
    }
  }

  // ----- Buckets

  /** The sum of the buckets. */
  function Total<G>(g: Group<G>, b: seq<G>): (r: G)
  {
    if b == [] then g.zero else g.add(Total(g, b[1..]), b[0])
  }

  /** Bucket i counted i + 1 times, as a sum of running totals. */
  function Running<G>(g: Group<G>, b: seq<G>): (r: G)
  {
    if b == [] then g.zero else g.add(Running(g, b[1..]), Total(g, b))
  }

  lemma {:induction false} TotalAdd<G(!new)>(g: Group<G>, b: seq<G>, x: nat, p: G)
    requires Laws(g) && x < |b|
    ensures Total(g, b[x := g.add(b[x], p)]) == g.add(Total(g, b), p)
  {
    hide Laws;
    var b' := b[x := g.add(b[x], p)];
    if x == 0 {
      assert b'[1..] == b[1..];
      Assoc(g, Total(g, b[1..]), b[0], p);
    } else {
      assert b'[1..] == b[1..][x - 1 := g.add(b[1..][x - 1], p)];
      TotalAdd(g, b[1..], x - 1, p);
      Assoc(g, Total(g, b[1..]), p, b[0]);
      Comm(g, p, b[0]);
      Assoc(g, Total(g, b[1..]), b[0], p);
    }
  }

  /** A point put into bucket x counts x + 1 times. */
  lemma {:induction false} RunningAdd<G(!new)>(g: Group<G>, b: seq<G>, x: nat, p: G)
    requires Laws(g) && x < |b|
    ensures Running(g, b[x := g.add(b[x], p)]) == g.add(Running(g, b), Times(g, x + 1, p))
  {
    hide Laws, Total;
    var b' := b[x := g.add(b[x], p)];
    TotalAdd(g, b, x, p);
    if x == 0 {
      assert b'[1..] == b[1..];
      TimesOne(g, p);
      Assoc(g, Running(g, b[1..]), Total(g, b), p);
    } else {
      assert b'[1..] == b[1..][x - 1 := g.add(b[1..][x - 1], p)];
      RunningAdd(g, b[1..], x - 1, p);
      Exchange(g, Running(g, b[1..]), Times(g, x, p), Total(g, b), p);
    }
  }

  lemma {:induction false} RunningZeros<G(!new)>(g: Group<G>, b: seq<G>)
    requires Laws(g) && forall i :: 0 <= i < |b| ==> b[i] == g.zero
    ensures Running(g, b) == g.zero && Total(g, b) == g.zero
  {
    hide Laws;
    if b != [] {
      RunningZeros(g, b[1..]);
      Unit(g, g.zero);
    }
  }

  // ----- Windows

  /** The exponents after j shifts by c bits. */
  function Shifted(e: seq<nat>, n: nat): (s: seq<nat>)
    ensures |s| == |e| && forall i :: 0 <= i < |e| ==> s[i] == Shr(e[i], n)
  {
    seq(|e|, i requires 0 <= i < |e| => Shr(e[i], n))
  }

  function Low(e: nat, c: nat): (d: nat)
  {
    e % Pow2(c)
  }

  function LowDigits(e: seq<nat>, c: nat): (d: seq<nat>)
    ensures |d| == |e| && forall i :: 0 <= i < |e| ==> d[i] == Low(e[i], c)
  {
    seq(|e|, i requires 0 <= i < |e| => Low(e[i], c))
  }

  lemma {:induction false} ShrSplit(e: nat, n: nat)
    ensures e == Pow2(n) * Shr(e, n) + e % Pow2(n)
  {
    if n > 0 {
      ShrSplit(e, n - 1);
      HalvedSplit(e, Pow2(n - 1), Shr(e, n - 1), e % Pow2(n - 1));
    }
  }

  lemma HalvedSplit(e: nat, p: nat, s: nat, r: nat)
    requires e == p * s + r && r < p
    ensures e == (2 * p) * (s / 2) + e % (2 * p)
  {
    var h, b := s / 2, s % 2;
    assert s == 2 * h + b;
    HalvedProduct(p, h, b);
    RemainderUnique(p * b + r, h, 2 * p, e);
  }

  lemma HalvedProduct(p: nat, h: nat, b: nat)
    requires b <= 1
    ensures p * (2 * h + b) == (2 * p) * h + p * b && p * b <= p
  {
  }

  lemma {:induction false} ShrShr(e: nat, m: nat, n: nat)
    ensures Shr(Shr(e, m), n) == Shr(e, m + n)
  {
    if n > 0 {
      ShrShr(e, m, n - 1);
    }
  }

  /** (b h + d) mod b m == b (h mod m) + d */
  lemma ModSplit(h: nat, d: nat, b: nat, m: nat)
    requires d < b && m > 0
    ensures b * m > 0 && (b * h + d) % (b * m) == b * (h % m) + d
  {
    var k := h / m;
    assert h == m * k + h % m;
    assert b * (m * k + h % m) == b * (m * k) + b * (h % m);
    assert b * (m * k) == (b * m) * k;
    assert b * (h % m) <= b * (m - 1);
    assert b * (m - 1) == b * m - b;
    RemainderUnique(b * (h % m) + d, k, b * m, b * h + d);
  }

  /** The exponents without their low m bits, cut off after the next n. */
  function Tail(e: seq<nat>, m: nat, n: nat): (t: seq<nat>)
    ensures |t| == |e| && forall i :: 0 <= i < |e| ==> t[i] == Low(Shr(e[i], m), n)
  {
    LowDigits(Shifted(e, m), n)
  }

  /** A tail is its lowest window and the next tail. */
  lemma TailSplit(e: nat, m: nat, c: nat, rest: nat)
    ensures Low(Shr(e, m), c + rest) == Pow2(c) * Low(Shr(e, m + c), rest) + Low(Shr(e, m), c)
  {
    hide Pow2, Shr;
    ShrShr(e, m, c);
    var y := Shr(e, m);
    ShrSplit(y, c);
    Pow2Add(c, rest);
    ModSplit(Shr(y, c), y % Pow2(c), Pow2(c), Pow2(rest));
  }

  /** The result of the last loop, window by window. */
  lemma TailSum<G(!new)>(g: Group<G>, p: seq<G>, e: seq<nat>, m: nat, c: nat, rest: nat)
    requires Laws(g) && |p| == |e|
    ensures Sum(g, p, Tail(e, m, c + rest), |p|)
         == g.add(Times(g, Pow2(c), Sum(g, p, Tail(e, m + c, rest), |p|)), Sum(g, p, LowDigits(Shifted(e, m), c), |p|))
  {
    hide Laws, Sum, Times, Tail, LowDigits, Pow2, Low, Shr;
    forall j | 0 <= j < |e|
      ensures Tail(e, m, c + rest)[j] == Pow2(c) * Tail(e, m + c, rest)[j] + LowDigits(Shifted(e, m), c)[j]
    {
      TailSplit(e[j], m, c, rest);
    }
    SumLinear(g, p, Tail(e, m, c + rest), Tail(e, m + c, rest), LowDigits(Shifted(e, m), c), Pow2(c), |p|);
  }

  // ----- MultiExp

  /** Fills new buckets from the low c bits of every exponent and shifts those out. */
  method FillBuckets<G(!new)>(g: Group<G>, points: seq<G>, powers: array<nat>, c: nat) returns (bucket: array<G>)
    requires Laws(g) && 1 <= c <= 63 && powers.Length == |points|
    modifies powers
    ensures powers[..] == Shifted(old(powers[..]), c)
    ensures Running(g, bucket[..]) == Sum(g, points, LowDigits(old(powers[..]), c), |points|)
  {
    hide Laws, Running, Times, Pow2, Shr, Low, LowBits, LowDigits, Shifted;
    bucket := new G[Pow2(c) - 1](_ => g.zero);
    ghost var e := powers[..];
    ghost var digits := LowDigits(e, c);
    RunningZeros(g, bucket[..]);
    assert Sum(g, points, digits, 0) == g.zero;
    hide Sum;
    for i := 0 to powers.Length
      invariant forall h :: 0 <= h < i ==> powers[h] == Shr(e[h], c)
      invariant forall h :: i <= h < powers.Length ==> powers[h] == e[h]
      invariant Running(g, bucket[..]) == Sum(g, points, digits, i)
    {
      var index := LowBits(powers[i], c);
      LowWord(powers[i], c);
      PutInBucket(g, bucket, index, points[i]);
      SumSnoc(g, points, digits, i);
      powers[i] := Shr(powers[i], c);
    }
  }

  /** Nothing to add for a zero digit. */
  method PutInBucket<G(!new)>(g: Group<G>, bucket: array<G>, index: nat, p: G)
    requires Laws(g) && index <= bucket.Length
    modifies bucket
    ensures Running(g, bucket[..]) == g.add(Running(g, old(bucket[..])), Times(g, index, p))
  {
    hide Laws, Running, Times;
    if index != 0 {
      RunningAdd(g, bucket[..], index - 1, p);
      bucket[index - 1] := g.add(bucket[index - 1], p);
      assert bucket[..] == old(bucket[..])[index - 1 := g.add(old(bucket[..])[index - 1], p)];
    } else {
      TimesOne(g, p);
      Unit(g, Running(g, bucket[..]));
    }
  }

  /** The low word of e under the mask of c bits. */
  function LowBits(e: nat, c: nat): (x: nat)
  {
    (e % 0x1_0000_0000_0000_0000) % Pow2(c)
  }

  /** The mask keeps bits of the low word only, and those are all it needs. */
  lemma LowWord(e: nat, c: nat)
    requires c <= 63
    ensures LowBits(e, c) == Low(e, c) < Pow2(c)
  {
    var rest := 64 - c;
    Pow2Add(rest, c);
    Pow2Radix(rest + c, 384);
    ModMod(e, Pow2(rest), Pow2(c));
  }

  lemma ModMod(e: nat, a: nat, b: nat)
    requires a > 0 && b > 0
    ensures a * b > 0 && (e % (a * b)) % b == e % b
  {
    var m := a * b;
    var f := e % m;
    assert e == m * (e / m) + f;
    assert f == b * (f / b) + f % b;
    assert m * (e / m) == b * (a * (e / m));
    assert b * (a * (e / m) + f / b) == b * (a * (e / m)) + b * (f / b);
    RemainderUnique(f % b, a * (e / m) + f / b, b, e);
  }

  /** Adds the buckets up from the top: running totals of running totals. */
  method DrainBuckets<G(!new)>(g: Group<G>, bucket: array<G>) returns (acc: G)
    requires Laws(g)
    ensures acc == Running(g, bucket[..])
  {
    hide Laws;
    var sum := g.zero;
    acc := g.zero;
    var i := bucket.Length;
    while i > 0
      invariant 0 <= i <= bucket.Length
      invariant sum == Total(g, bucket[i..]) && acc == Running(g, bucket[i..])
    {
      i := i - 1;
      assert bucket[i..][1..] == bucket[i + 1..];
      sum := g.add(sum, bucket[i]);
      acc := g.add(acc, sum);
    }
    assert bucket[0..] == bucket[..];
  }

  function WindowCount(c: nat): (w: nat)
    requires c >= 1
  {
    NUM_BITS / c + 1
  }

  /** Window j starts within the scalar exactly when there is a slot for it. */
  lemma WindowFits(c: nat, j: nat)
    requires c >= 1
    ensures j * c <= NUM_BITS <==> j < WindowCount(c)
  {
    MultipleFits(NUM_BITS, c, j);
  }

  lemma MultipleFits(n: nat, c: nat, j: nat)
    requires c >= 1
    ensures j * c <= n <==> j <= n / c
  {
    var q := n / c;
    DivBounds(n, c);
    if j <= q {
      MulMonotone(c, j, q);
    } else {
      MulMonotone(c, q + 1, j);
    }
  }

  lemma DivBounds(n: nat, c: nat)
    requires c >= 1
    ensures (n / c) * c <= n < (n / c + 1) * c
  {
    assert n == c * (n / c) + n % c;
  }

  /** The sum for the low digits, which are shifted out. */
  method WindowSum<G(!new)>(g: Group<G>, points: seq<G>, powers: array<nat>, c: nat) returns (acc: G)
    requires Laws(g) && 1 <= c <= 63 && powers.Length == |points|
    modifies powers
    ensures powers[..] == Shifted(old(powers[..]), c)
    ensures acc == Sum(g, points, LowDigits(old(powers[..]), c), |points|)
  {
    hide Laws, Sum, Running, LowDigits, Shr;
    var bucket := FillBuckets(g, points, powers, c);
    acc := DrainBuckets(g, bucket);
  }

  /** The first loop: one bucket sum for each window, from the lowest. */
  method FillWindows<G(!new)>(g: Group<G>, points: seq<G>, powers: array<nat>, c: nat)
    returns (windows: array<Option<G>>)
    requires Laws(g) && 1 <= c <= 63 && powers.Length == |points|
    modifies powers
    ensures windows.Length == WindowCount(c)
    ensures powers[..] == Shifted(old(powers[..]), c * WindowCount(c))
    ensures forall t :: 0 <= t < windows.Length ==>
                          windows[t] == Some(Sum(g, points, LowDigits(Shifted(old(powers[..]), c * t), c), |points|))
  {
    hide Laws, Sum, Running, LowDigits, Shr;
    windows := new Option<G>[NUM_BITS / c + 1](_ => None);
    ghost var e := powers[..];
    ShiftNothing(e);
    assert c * 0 == 0;
    var j, cur := 0, 0;
    WindowFits(c, j);
    while cur <= NUM_BITS
      invariant cur == j * c && 0 <= j <= windows.Length
      invariant cur <= NUM_BITS <==> j < WindowCount(c)
      invariant powers[..] == Shifted(e, c * j)
      invariant forall t :: 0 <= t < j ==> windows[t] == Some(Sum(g, points, LowDigits(Shifted(e, c * t), c), |points|))
      invariant forall t :: j <= t < windows.Length ==> windows[t] == None
      decreases windows.Length - j
    {
      var acc := WindowSum(g, points, powers, c);
      ShiftMore(e, c * j, c);
      Offset(c, j);
      windows[j] := Some(acc);
      j := j + 1;
      cur := cur + c;
      WindowFits(c, j);
    }
  }

  lemma ShiftNothing(e: seq<nat>)
    ensures Shifted(e, 0) == e
  {
  }

  lemma ShiftMore(e: seq<nat>, m: nat, n: nat)
    ensures Shifted(Shifted(e, m), n) == Shifted(e, m + n)
  {
    hide Shr;
    forall i | 0 <= i < |e|
      ensures Shr(Shr(e[i], m), n) == Shr(e[i], m + n)
    {
      ShrShr(e[i], m, n);
    }
  }

  /** c doublings */
  method Shift<G(!new)>(g: Group<G>, p: G, c: nat) returns (acc: G)
    requires Laws(g)
    ensures acc == Times(g, Pow2(c), p)
  {
    hide Laws, Times;
    acc := p;
    TimesOne(g, p);
    for j := 0 to c
      invariant acc == Times(g, Pow2(j), p)
    {
      acc := g.double(acc);
      TimesBit(g, Pow2(j), 0, p);
    }
  }

  /** The last loop: the windows from the top, shifted into place. */
  method Collect<G(!new)>(g: Group<G>, windows: array<Option<G>>, c: nat, ghost p: seq<G>, ghost e: seq<nat>)
    returns (acc: G)
    requires Laws(g) && |p| == |e|
    requires forall t :: 0 <= t < windows.Length ==>
                           windows[t] == Some(Sum(g, p, LowDigits(Shifted(e, c * t), c), |p|))
    ensures acc == Sum(g, p, LowDigits(e, c * windows.Length), |p|)
  {
    hide Laws, Sum, LowDigits, Shifted, Pow2, Times, Tail;
    acc := g.zero;
    var i := windows.Length;
    ghost var m, rest := c * i, 0;
    LastTail(g, p, e, m);
    while i > 0
      invariant 0 <= i <= windows.Length && m == c * i && m + rest == c * windows.Length && rest >= 0
      invariant acc == Sum(g, p, Tail(e, m, rest), |p|)
    {
      i := i - 1;
      acc := Shift(g, acc, c);
      acc := g.add(acc, windows[i].value);
      Offset(c, i);
      m := m - c;
      TailSum(g, p, e, m, c, rest);
      rest := c + rest;
    }
    FirstTail(e, rest);
  }

  lemma Offset(c: nat, i: nat)
    ensures c * (i + 1) == c * i + c >= c
  {
  }

  /** MultiExp for any window width; None stands for the length error. The caller's
      exponents are shifted away. Bits above the last window do not count. */
  method MultiExp<G(!new)>(g: Group<G>, points: seq<G>, powers: array<nat>, c: nat) returns (r: Option<G>)
    requires Laws(g) && 1 <= c <= 63
    modifies powers
    ensures r.None? <==> |points| != powers.Length
    ensures r.None? ==> powers[..] == old(powers[..])
    ensures r.Some? ==> powers[..] == Shifted(old(powers[..]), c * WindowCount(c))
    ensures r.Some? ==> r.value == Sum(g, points, LowDigits(old(powers[..]), c * WindowCount(c)), |points|)
    ensures r.Some? && (forall i :: 0 <= i < |points| ==> old(powers[i]) < Pow2(NUM_BITS + 1)) ==>
              && r.value == Sum(g, points, old(powers[..]), |points|)
              && forall i :: 0 <= i < |points| ==> powers[i] == 0
  {
    hide Laws, Sum, LowDigits, Shifted, Pow2, Times;
    if |points| != powers.Length {
      return None;
    }
    ghost var e := powers[..];
    var windows := FillWindows(g, points, powers, c);
    var acc := Collect(g, windows, c, points, e);
    if forall i :: 0 <= i < |points| ==> e[i] < Pow2(NUM_BITS + 1) {
      NothingCut(e, c);
    }
    r := Some(acc);
  }

  lemma LastTail<G(!new)>(g: Group<G>, p: seq<G>, e: seq<nat>, m: nat)
    requires Laws(g) && |p| == |e|
    ensures Sum(g, p, Tail(e, m, 0), |p|) == g.zero
  {
    hide Laws, Shr, Shifted;
    assert Pow2(0) == 1;
    SumZeros(g, p, Tail(e, m, 0), |p|);
  }

  lemma FirstTail(e: seq<nat>, n: nat)
    ensures Tail(e, 0, n) == LowDigits(e, n)
  {
    ShiftNothing(e);
  }

  /** The windows cover 256 bits for every width. */
  lemma NothingCut(e: seq<nat>, c: nat)
    requires c >= 1 && forall i :: 0 <= i < |e| ==> e[i] < Pow2(NUM_BITS + 1)
    ensures LowDigits(e, c * WindowCount(c)) == e
    ensures forall i :: 0 <= i < |e| ==> Shifted(e, c * WindowCount(c))[i] == 0
  {
    hide Shr;
    var n := c * WindowCount(c);
    WindowFits(c, WindowCount(c));
    Pow2Monotone(NUM_BITS + 1, n);
    forall i | 0 <= i < |e|
      ensures Low(e[i], n) == e[i] && Shr(e[i], n) == 0
    {
      ShrSplit(e[i], n);
      AllRemainder(e[i], Pow2(n));
    }
  }

  lemma AllRemainder(e: nat, m: nat)
    requires e < m
    ensures e % m == e
    ensures forall q: nat :: e == m * q + e ==> q == 0
  {
    RemainderUnique(e, 0, m, e);
  }
}
