/** The compression function of BLAKE2b: section 3 of RFC 7693, and the unrolled rounds
    that mix four columns at once with a table in their own order. */
module Blake2F {
  import opened Longs

  type Chain = s: seq<Long> | |s| == 8 witness seq(8, _ => 0)

  function Plus(a: Long, b: Long): (r: Long) { a + b }

  // ----- Sections 2.6, 2.7, 3.1 and 3.2 of RFC 7693

  const IV: Chain := [0x6a09e667f3bcc908, 0xbb67ae8584caa73b, 0x3c6ef372fe94f82b, 0xa54ff53a5f1d36f1,
                      0x510e527fade682d1, 0x9b05688c2b3e6c1f, 0x1f83d9abfb41bd6b, 0x5be0cd19137e2179]

  type Index = i: nat | i < 16
  type Schedule = s: seq<Index> | |s| == 16 witness seq(16, _ => 0)

  function Sigma(r: nat): (s: Schedule)
    requires r < 10
  {
    match r
    case 0 => [0, 1, 2, 3, 4, 5, 6, 7, 8, 9, 10, 11, 12, 13, 14, 15]
    case 1 => [14, 10, 4, 8, 9, 15, 13, 6, 1, 12, 0, 2, 11, 7, 5, 3]
    case 2 => [11, 8, 12, 0, 5, 2, 15, 13, 10, 14, 3, 6, 7, 1, 9, 4]
    case 3 => [7, 9, 3, 1, 13, 12, 11, 14, 2, 6, 5, 10, 4, 0, 15, 8]
    case 4 => [9, 0, 5, 7, 2, 4, 10, 15, 14, 1, 11, 12, 6, 8, 3, 13]
    case 5 => [2, 12, 6, 10, 0, 11, 8, 3, 4, 13, 7, 5, 15, 14, 1, 9]
    case 6 => [12, 5, 1, 15, 14, 13, 4, 10, 0, 7, 6, 3, 9, 2, 8, 11]
    case 7 => [13, 11, 7, 14, 12, 1, 3, 9, 5, 0, 15, 4, 8, 6, 2, 10]
    case 8 => [6, 15, 14, 9, 11, 3, 0, 8, 12, 2, 13, 7, 1, 4, 10, 5]
    case 9 => [10, 2, 8, 4, 7, 6, 1, 5, 15, 11, 9, 14, 3, 12, 13, 0]
  }

  /** Half of the function G on the entries a, b, c and d, with its two rotations. */
  function MixHalf(v: seq<Long>, a: Index, b: Index, c: Index, d: Index, x: Long, n: nat, k: nat): (w: seq<Long>)
    requires |v| == 16 && 0 < n <= 64 && 0 < k <= 64
    ensures |w| == 16
  {
    var v := v[a := Plus(Plus(v[a], v[b]), x)];
    var v := v[d := Rot(Xor(v[d], v[a]), 64 - n)];
    var v := v[c := Plus(v[c], v[d])];
    v[b := Rot(Xor(v[b], v[c]), 64 - k)]
  }

  function Mix(v: seq<Long>, a: Index, b: Index, c: Index, d: Index, x: Long, y: Long): (w: seq<Long>)
    requires |v| == 16
    ensures |w| == 16
  {
    MixHalf(MixHalf(v, a, b, c, d, x, 32, 24), a, b, c, d, y, 16, 63)
  }

  function Columns(v: seq<Long>, m: seq<Long>, s: Schedule): (w: seq<Long>)
    requires |v| == 16 && |m| == 16
    ensures |w| == 16
  {
    var v := Mix(v, 0, 4, 8, 12, m[s[0]], m[s[1]]);
    var v := Mix(v, 1, 5, 9, 13, m[s[2]], m[s[3]]);
    var v := Mix(v, 2, 6, 10, 14, m[s[4]], m[s[5]]);
    Mix(v, 3, 7, 11, 15, m[s[6]], m[s[7]])
  }

  function Diagonals(v: seq<Long>, m: seq<Long>, s: Schedule): (w: seq<Long>)
    requires |v| == 16 && |m| == 16
    ensures |w| == 16
  {
    var v := Mix(v, 0, 5, 10, 15, m[s[8]], m[s[9]]);
    var v := Mix(v, 1, 6, 11, 12, m[s[10]], m[s[11]]);
    var v := Mix(v, 2, 7, 8, 13, m[s[12]], m[s[13]]);
    Mix(v, 3, 4, 9, 14, m[s[14]], m[s[15]])
  }

  function Rounds(v: seq<Long>, m: seq<Long>, n: nat): (w: seq<Long>)
    requires |v| == 16 && |m| == 16
    ensures |w| == 16
  {
    if n == 0 then v
    else
      var s := Sigma((n - 1) % 10);
      Diagonals(Columns(Rounds(v, m, n - 1), m, s), m, s)
  }

  /** The working vector: chain value and initialization vector, the counter and the flag. */
  function Working(h: Chain, c0: Long, c1: Long, flag: Long): (v: seq<Long>)
    ensures |v| == 16
  {
    h + IV[4 := Xor(IV[4], c0)][5 := Xor(IV[5], c1)][6 := Xor(IV[6], flag)]
  }

  function Folded(h: Chain, v: seq<Long>): (r: Chain)
    requires |v| == 16
  {
    seq(8, i requires 0 <= i < 8 => Xor(h[i], Xor(v[i], v[i + 8])))
  }

  function F(h: Chain, m: seq<Long>, c0: Long, c1: Long, flag: Long, rounds: nat): (r: Chain)
    requires |m| == 16
  {
    Folded(h, Rounds(Working(h, c0, c1, flag), m, rounds))
  }

  // ----- The order of the table

  /** The message words of the four columns, first ones first, then of the diagonals. */
  function Precomputed(r: nat): (s: Schedule)
    requires r < 10
  {
    match r
    case 0 => [0, 2, 4, 6, 1, 3, 5, 7, 8, 10, 12, 14, 9, 11, 13, 15]
    case 1 => [14, 4, 9, 13, 10, 8, 15, 6, 1, 0, 11, 5, 12, 2, 7, 3]
    case 2 => [11, 12, 5, 15, 8, 0, 2, 13, 10, 3, 7, 9, 14, 6, 1, 4]
    case 3 => [7, 3, 13, 11, 9, 1, 12, 14, 2, 5, 4, 15, 6, 10, 0, 8]
    case 4 => [9, 5, 2, 10, 0, 7, 4, 15, 14, 11, 6, 3, 1, 12, 8, 13]
    case 5 => [2, 6, 0, 8, 12, 10, 11, 3, 4, 7, 15, 1, 13, 5, 14, 9]
    case 6 => [12, 1, 14, 4, 5, 15, 13, 10, 0, 6, 9, 8, 7, 3, 2, 11]
    case 7 => [13, 7, 12, 3, 11, 14, 1, 9, 5, 15, 8, 2, 0, 4, 6, 10]
    case 8 => [6, 14, 11, 0, 15, 9, 3, 8, 12, 13, 1, 10, 2, 7, 4, 5]
    case 9 => [10, 8, 7, 1, 2, 4, 6, 5, 15, 9, 3, 13, 11, 14, 12, 0]
  }

  lemma TableIsSigma(r: nat)
    requires r < 10
    ensures var s := Sigma(r);
            Precomputed(r) == [s[0], s[2], s[4], s[6], s[1], s[3], s[5], s[7],
                               s[8], s[10], s[12], s[14], s[9], s[11], s[13], s[15]]
  {
    match r { case 0 => case 1 => case 2 => case 3 => case 4 => case 5 => case 6 => case 7 => case 8 => case 9 => }
  }

  // ----- Four quarters at once

  datatype Quarter = Quarter(a: Long, b: Long, c: Long, d: Long)

  /** Half of G, with the distances of its two rotations. */
  function Half(q: Quarter, x: Long, n: nat, k: nat): (r: Quarter)
    requires 0 < n <= 64 && 0 < k <= 64
  {
    var a := Plus(Plus(q.a, x), q.b);
    var d := Rot(Xor(q.d, a), 64 - n);
    var c := Plus(q.c, d);
    Quarter(a, Rot(Xor(q.b, c), 64 - k), c, d)
  }

  function Both(q: Quarter, x: Long, y: Long): (r: Quarter)
  {
    Half(Half(q, x, 32, 24), y, 16, 63)
  }

  lemma Rearranged(a: bv64, b: bv64, x: bv64)
    ensures (a + x) + b == (a + b) + x
  {
  }

  lemma PlusCommutes(a: Long, b: Long, x: Long)
    ensures Plus(Plus(a, x), b) == Plus(Plus(a, b), x)
  {
    calc {
      Plus(Plus(a, x), b);
      Plus(a, x) + b;
      (a + x) + b;
      { Rearranged(a, b, x); }
      (a + b) + x;
      Plus(a, b) + x;
      Plus(Plus(a, b), x);
    }
  }

  ghost predicate Apart(a: Index, b: Index, c: Index, d: Index)
  {
    a != b && a != c && a != d && b != c && b != d && c != d
  }

  ghost predicate Holds(v: seq<Long>, a: Index, b: Index, c: Index, d: Index, q: Quarter)
    requires |v| == 16
  {
    v[a] == q.a && v[b] == q.b && v[c] == q.c && v[d] == q.d
  }

  ghost predicate SameBut(v: seq<Long>, w: seq<Long>, a: Index, b: Index, c: Index, d: Index)
    requires |v| == 16 && |w| == 16
  {
    forall i :: 0 <= i < 16 && i != a && i != b && i != c && i != d ==> w[i] == v[i]
  }

  lemma MixHalfIs(v: seq<Long>, a: Index, b: Index, c: Index, d: Index, q: Quarter, x: Long, n: nat, k: nat)
    requires |v| == 16 && 0 < n <= 64 && 0 < k <= 64 && Apart(a, b, c, d) && Holds(v, a, b, c, d, q)
    ensures var w := MixHalf(v, a, b, c, d, x, n, k);
            Holds(w, a, b, c, d, Half(q, x, n, k)) && SameBut(v, w, a, b, c, d)
  {
    hide Plus, Xor, Rot;
    PlusCommutes(v[a], v[b], x);
  }

  /** G changes four entries, by what they hold alone. */
  lemma MixIs(v: seq<Long>, a: Index, b: Index, c: Index, d: Index, q: Quarter, x: Long, y: Long)
    requires |v| == 16 && Apart(a, b, c, d) && Holds(v, a, b, c, d, q)
    ensures var w := Mix(v, a, b, c, d, x, y);
            Holds(w, a, b, c, d, Both(q, x, y)) && SameBut(v, w, a, b, c, d)
  {
    hide Half, MixHalf, Holds;
    MixHalfIs(v, a, b, c, d, q, x, 32, 24);
    MixHalfIs(MixHalf(v, a, b, c, d, x, 32, 24), a, b, c, d, Half(q, x, 32, 24), y, 16, 63);
  }

  lemma ColumnsRead(w: seq<Long>, p: Quarter, q: Quarter, r: Quarter, t: Quarter)
    requires |w| == 16
    requires Holds(w, 0, 4, 8, 12, p) && Holds(w, 1, 5, 9, 13, q) && Holds(w, 2, 6, 10, 14, r) && Holds(w, 3, 7, 11, 15, t)
    ensures w == [p.a, q.a, r.a, t.a, p.b, q.b, r.b, t.b, p.c, q.c, r.c, t.c, p.d, q.d, r.d, t.d]
  {
  }

  lemma ColumnsAre(v: seq<Long>, m: seq<Long>, s: Schedule)
    requires |v| == 16 && |m| == 16
    ensures var p := Both(Quarter(v[0], v[4], v[8], v[12]), m[s[0]], m[s[1]]);
            var q := Both(Quarter(v[1], v[5], v[9], v[13]), m[s[2]], m[s[3]]);
            var r := Both(Quarter(v[2], v[6], v[10], v[14]), m[s[4]], m[s[5]]);
            var t := Both(Quarter(v[3], v[7], v[11], v[15]), m[s[6]], m[s[7]]);
            Columns(v, m, s) == [p.a, q.a, r.a, t.a, p.b, q.b, r.b, t.b, p.c, q.c, r.c, t.c, p.d, q.d, r.d, t.d]
  {
    hide Both, Mix;
    var w := Columns(v, m, s);
    MixIs(v, 0, 4, 8, 12, Quarter(v[0], v[4], v[8], v[12]), m[s[0]], m[s[1]]);
    var v1 := Mix(v, 0, 4, 8, 12, m[s[0]], m[s[1]]);
    MixIs(v1, 1, 5, 9, 13, Quarter(v[1], v[5], v[9], v[13]), m[s[2]], m[s[3]]);
    var v2 := Mix(v1, 1, 5, 9, 13, m[s[2]], m[s[3]]);
    MixIs(v2, 2, 6, 10, 14, Quarter(v[2], v[6], v[10], v[14]), m[s[4]], m[s[5]]);
    var v3 := Mix(v2, 2, 6, 10, 14, m[s[4]], m[s[5]]);
    MixIs(v3, 3, 7, 11, 15, Quarter(v[3], v[7], v[11], v[15]), m[s[6]], m[s[7]]);
    ColumnsRead(w, Both(Quarter(v[0], v[4], v[8], v[12]), m[s[0]], m[s[1]]),
                Both(Quarter(v[1], v[5], v[9], v[13]), m[s[2]], m[s[3]]),
                Both(Quarter(v[2], v[6], v[10], v[14]), m[s[4]], m[s[5]]),
                Both(Quarter(v[3], v[7], v[11], v[15]), m[s[6]], m[s[7]]));
  }

  lemma DiagonalsRead(w: seq<Long>, p: Quarter, q: Quarter, r: Quarter, t: Quarter)
    requires |w| == 16
    requires Holds(w, 0, 5, 10, 15, p) && Holds(w, 1, 6, 11, 12, q) && Holds(w, 2, 7, 8, 13, r) && Holds(w, 3, 4, 9, 14, t)
    ensures w == [p.a, q.a, r.a, t.a, t.b, p.b, q.b, r.b, r.c, t.c, p.c, q.c, q.d, r.d, t.d, p.d]
  {
  }

  lemma DiagonalsAre(v: seq<Long>, m: seq<Long>, s: Schedule)
    requires |v| == 16 && |m| == 16
    ensures var p := Both(Quarter(v[0], v[5], v[10], v[15]), m[s[8]], m[s[9]]);
            var q := Both(Quarter(v[1], v[6], v[11], v[12]), m[s[10]], m[s[11]]);
            var r := Both(Quarter(v[2], v[7], v[8], v[13]), m[s[12]], m[s[13]]);
            var t := Both(Quarter(v[3], v[4], v[9], v[14]), m[s[14]], m[s[15]]);
            Diagonals(v, m, s) == [p.a, q.a, r.a, t.a, t.b, p.b, q.b, r.b, r.c, t.c, p.c, q.c, q.d, r.d, t.d, p.d]
  {
    hide Both, Mix;
    var w := Diagonals(v, m, s);
    MixIs(v, 0, 5, 10, 15, Quarter(v[0], v[5], v[10], v[15]), m[s[8]], m[s[9]]);
    var v1 := Mix(v, 0, 5, 10, 15, m[s[8]], m[s[9]]);
    MixIs(v1, 1, 6, 11, 12, Quarter(v[1], v[6], v[11], v[12]), m[s[10]], m[s[11]]);
    var v2 := Mix(v1, 1, 6, 11, 12, m[s[10]], m[s[11]]);
    MixIs(v2, 2, 7, 8, 13, Quarter(v[2], v[7], v[8], v[13]), m[s[12]], m[s[13]]);
    var v3 := Mix(v2, 2, 7, 8, 13, m[s[12]], m[s[13]]);
    MixIs(v3, 3, 4, 9, 14, Quarter(v[3], v[4], v[9], v[14]), m[s[14]], m[s[15]]);
    DiagonalsRead(w, Both(Quarter(v[0], v[5], v[10], v[15]), m[s[8]], m[s[9]]),
                  Both(Quarter(v[1], v[6], v[11], v[12]), m[s[10]], m[s[11]]),
                  Both(Quarter(v[2], v[7], v[8], v[13]), m[s[12]], m[s[13]]),
                  Both(Quarter(v[3], v[4], v[9], v[14]), m[s[14]], m[s[15]]));
  }

  /** The first half of a round, the four columns side by side. */
  method MixColumns(v: seq<Long>, m: seq<Long>, s: Schedule, ghost sigma: Schedule) returns (w: seq<Long>)
    requires |v| == 16 && |m| == 16
    requires s[..8] == [sigma[0], sigma[2], sigma[4], sigma[6], sigma[1], sigma[3], sigma[5], sigma[7]]
    ensures w == Columns(v, m, sigma)
  {
    hide Plus, Xor, Rot, Columns, Mix;
    ColumnsAre(v, m, sigma);
    var v0, v1, v2, v3, v4, v5, v6, v7 := v[0], v[1], v[2], v[3], v[4], v[5], v[6], v[7];
    var v8, v9, v10, v11, v12, v13, v14, v15 := v[8], v[9], v[10], v[11], v[12], v[13], v[14], v[15];

    v0 := Plus(v0, m[s[0]]); v0 := Plus(v0, v4); v12 := Xor(v12, v0);
    v12 := Rot(v12, 64 - 32); v8 := Plus(v8, v12); v4 := Xor(v4, v8); v4 := Rot(v4, 64 - 24);
    v1 := Plus(v1, m[s[1]]); v1 := Plus(v1, v5); v13 := Xor(v13, v1);
    v13 := Rot(v13, 64 - 32); v9 := Plus(v9, v13); v5 := Xor(v5, v9); v5 := Rot(v5, 64 - 24);
    v2 := Plus(v2, m[s[2]]); v2 := Plus(v2, v6); v14 := Xor(v14, v2);
    v14 := Rot(v14, 64 - 32); v10 := Plus(v10, v14); v6 := Xor(v6, v10); v6 := Rot(v6, 64 - 24);
    v3 := Plus(v3, m[s[3]]); v3 := Plus(v3, v7); v15 := Xor(v15, v3);
    v15 := Rot(v15, 64 - 32); v11 := Plus(v11, v15); v7 := Xor(v7, v11); v7 := Rot(v7, 64 - 24);

    v0 := Plus(v0, m[s[4]]); v0 := Plus(v0, v4); v12 := Xor(v12, v0);
    v12 := Rot(v12, 64 - 16); v8 := Plus(v8, v12); v4 := Xor(v4, v8); v4 := Rot(v4, 64 - 63);
    v1 := Plus(v1, m[s[5]]); v1 := Plus(v1, v5); v13 := Xor(v13, v1);
    v13 := Rot(v13, 64 - 16); v9 := Plus(v9, v13); v5 := Xor(v5, v9); v5 := Rot(v5, 64 - 63);
    v2 := Plus(v2, m[s[6]]); v2 := Plus(v2, v6); v14 := Xor(v14, v2);
    v14 := Rot(v14, 64 - 16); v10 := Plus(v10, v14); v6 := Xor(v6, v10); v6 := Rot(v6, 64 - 63);
    v3 := Plus(v3, m[s[7]]); v3 := Plus(v3, v7); v15 := Xor(v15, v3);
    v15 := Rot(v15, 64 - 16); v11 := Plus(v11, v15); v7 := Xor(v7, v11); v7 := Rot(v7, 64 - 63);

    w := [v0, v1, v2, v3, v4, v5, v6, v7, v8, v9, v10, v11, v12, v13, v14, v15];
  }

  /** The second half, the four diagonals side by side. */
  method MixDiagonals(v: seq<Long>, m: seq<Long>, s: Schedule, ghost sigma: Schedule) returns (w: seq<Long>)
    requires |v| == 16 && |m| == 16
    requires s[8..] == [sigma[8], sigma[10], sigma[12], sigma[14], sigma[9], sigma[11], sigma[13], sigma[15]]
    ensures w == Diagonals(v, m, sigma)
  {
    hide Plus, Xor, Rot, Diagonals, Mix;
    DiagonalsAre(v, m, sigma);
    var v0, v1, v2, v3, v4, v5, v6, v7 := v[0], v[1], v[2], v[3], v[4], v[5], v[6], v[7];
    var v8, v9, v10, v11, v12, v13, v14, v15 := v[8], v[9], v[10], v[11], v[12], v[13], v[14], v[15];

    v0 := Plus(v0, m[s[8]]); v0 := Plus(v0, v5); v15 := Xor(v15, v0);
    v15 := Rot(v15, 64 - 32); v10 := Plus(v10, v15); v5 := Xor(v5, v10); v5 := Rot(v5, 64 - 24);
    v1 := Plus(v1, m[s[9]]); v1 := Plus(v1, v6); v12 := Xor(v12, v1);
    v12 := Rot(v12, 64 - 32); v11 := Plus(v11, v12); v6 := Xor(v6, v11); v6 := Rot(v6, 64 - 24);
    v2 := Plus(v2, m[s[10]]); v2 := Plus(v2, v7); v13 := Xor(v13, v2);
    v13 := Rot(v13, 64 - 32); v8 := Plus(v8, v13); v7 := Xor(v7, v8); v7 := Rot(v7, 64 - 24);
    v3 := Plus(v3, m[s[11]]); v3 := Plus(v3, v4); v14 := Xor(v14, v3);
    v14 := Rot(v14, 64 - 32); v9 := Plus(v9, v14); v4 := Xor(v4, v9); v4 := Rot(v4, 64 - 24);

    v0 := Plus(v0, m[s[12]]); v0 := Plus(v0, v5); v15 := Xor(v15, v0);
    v15 := Rot(v15, 64 - 16); v10 := Plus(v10, v15); v5 := Xor(v5, v10); v5 := Rot(v5, 64 - 63);
    v1 := Plus(v1, m[s[13]]); v1 := Plus(v1, v6); v12 := Xor(v12, v1);
    v12 := Rot(v12, 64 - 16); v11 := Plus(v11, v12); v6 := Xor(v6, v11); v6 := Rot(v6, 64 - 63);
    v2 := Plus(v2, m[s[14]]); v2 := Plus(v2, v7); v13 := Xor(v13, v2);
    v13 := Rot(v13, 64 - 16); v8 := Plus(v8, v13); v7 := Xor(v7, v8); v7 := Rot(v7, 64 - 63);
    v3 := Plus(v3, m[s[15]]); v3 := Plus(v3, v4); v14 := Xor(v14, v3);
    v14 := Rot(v14, 64 - 16); v9 := Plus(v9, v14); v4 := Xor(v4, v9); v4 := Rot(v4, 64 - 63);

    w := [v0, v1, v2, v3, v4, v5, v6, v7, v8, v9, v10, v11, v12, v13, v14, v15];
  }

  /** fGeneric: the compression function, for any number of rounds, in place. */
  method FGeneric(h: array<Long>, m: seq<Long>, c0: Long, c1: Long, flag: Long, rounds: nat)
    requires h.Length == 8 && |m| == 16
    modifies h
    ensures h[..] == F(old(h[..]), m, c0, c1, flag, rounds)
  {
    hide Plus, Xor, Rot, Columns, Diagonals, Sigma, Precomputed;
    ghost var was := h[..];
    var v := h[..] + [IV[0], IV[1], IV[2], IV[3], Xor(IV[4], c0), Xor(IV[5], c1), Xor(IV[6], flag), IV[7]];
    assert v == Working(was, c0, c1, flag);
    for i := 0 to rounds
      invariant |v| == 16 && v == Rounds(Working(was, c0, c1, flag), m, i)
      invariant h[..] == was
    {
      var s := Precomputed(i % 10);
      ghost var sigma := Sigma(i % 10);
      TableIsSigma(i % 10);
      v := MixColumns(v, m, s, sigma);
      v := MixDiagonals(v, m, s, sigma);
    }
    Fold(h, v);
  }

  method FoldAt(h: array<Long>, i: nat, a: Long, b: Long)
    requires h.Length == 8 && i < 8
    modifies h
    ensures h[i] == Xor(old(h[i]), Xor(a, b)) && forall j :: 0 <= j < 8 && j != i ==> h[j] == old(h[j])
  {
    hide Xor;
    h[i] := Xor(h[i], Xor(a, b));
  }

  method FoldLower(h: array<Long>, v: seq<Long>)
    requires h.Length == 8 && |v| == 16
    modifies h
    ensures h[0] == Xor(old(h[0]), Xor(v[0], v[8])) && h[1] == Xor(old(h[1]), Xor(v[1], v[9]))
    ensures h[2] == Xor(old(h[2]), Xor(v[2], v[10])) && h[3] == Xor(old(h[3]), Xor(v[3], v[11]))
    ensures h[4] == old(h[4]) && h[5] == old(h[5]) && h[6] == old(h[6]) && h[7] == old(h[7])
  {
    hide Xor;
    FoldAt(h, 0, v[0], v[8]);
    FoldAt(h, 1, v[1], v[9]);
    FoldAt(h, 2, v[2], v[10]);
    FoldAt(h, 3, v[3], v[11]);
  }

  method Fold(h: array<Long>, v: seq<Long>)
    requires h.Length == 8 && |v| == 16
    modifies h
    ensures h[..] == Folded(old(h[..]), v)
  {
    hide Xor;
    FoldLower(h, v);
    FoldAt(h, 4, v[4], v[12]);
    FoldAt(h, 5, v[5], v[13]);
    FoldAt(h, 6, v[6], v[14]);
    FoldAt(h, 7, v[7], v[15]);
  }
}
