/** Sections 3.1, 4 and 5.1 of FIPS 202 on strings of bits: the sponge on bytes is the
    sponge on their bits, from the padding to the digest. */
module Sha3Bits {
  import opened Bits
  import opened Congruence
  import opened KeccakBits
  import opened Longs
  import K = Keccak
  import S = Sponge
  import Pieces
  import Sha3

  type BitString = seq<bool>

  function BitsOf(s: seq<Octet>): (b: BitString)
    ensures |b| == 8 * |s|
  {
    seq(8 * |s|, i requires 0 <= i < 8 * |s| => BitAt(s, i))
  }

  // ----- Strings and state arrays

  /** Bit (x, y, z) of the state array is bit 64(5y + x) + z of the string. */
  function Array(s: BitString): (a: Cube)
    requires |s| == 1600
  {
    (x: nat, y: nat, z: nat) => x < 5 && y < 5 && z < 64 && s[64 * (5 * y + x) + z]
  }

  function StringOf(a: Cube): (s: BitString)
    ensures |s| == 1600
  {
    seq(1600, i requires 0 <= i < 1600 => a(i / 64 % 5, i / 64 / 5, i % 64))
  }

  function KeccakF(s: BitString): (t: BitString)
    requires |s| == 1600
    ensures |t| == 1600
  {
    StringOf(Rounds(Array(s), 24))
  }

  // ----- The sponge construction

  /** pad10*1: ones around as few zeros as fill a block. */
  function Pad101(x: nat, m: nat): (p: BitString)
    requires x > 0
  {
    [true] + seq((x - (m + 2) % x) % x, _ => false) + [true]
  }

  function Added(s: BitString, p: BitString): (t: BitString)
    requires |s| == 1600
    ensures |t| == 1600
  {
    seq(1600, i requires 0 <= i < 1600 => Plus(s[i], i < |p| && p[i]))
  }

  /** The state after all whole blocks of r bits, from all zeros. */
  function Absorbed(r: nat, p: BitString): (s: BitString)
    requires 0 < r <= 1600
    ensures |s| == 1600
  {
    if |p| < r then seq(1600, _ => false)
    else KeccakF(Added(Absorbed(r, p[..|p| - r]), p[|p| - r..]))
  }

  function Squeezed(r: nat, s: BitString, d: nat): (z: BitString)
    requires 0 < r <= 1600 && |s| == 1600
    decreases d
  {
    if d <= r then s[..d] else s[..r] + Squeezed(r, KeccakF(s), d - r)
  }

  /** SPONGE[Keccak-f[1600], pad10*1, r](n, d). */
  function SpongeOf(r: nat, n: BitString, d: nat): (z: BitString)
    requires 0 < r <= 1600
  {
    Squeezed(r, Absorbed(r, n + Pad101(r, |n|)), d)
  }

  /** SHA3-d: the capacity is 2d, and the message is followed by 01. */
  function Sha3Of(d: nat, m: BitString): (z: BitString)
    requires 2 * d < 1600
  {
    SpongeOf(1600 - 2 * d, m + [false, true], d)
  }

  // ----- The permutation

  lemma ArrayIsCube(b: S.Lanes)
    ensures Same(CubeOf(Sha3.LanesOf(b)), Array(BitsOf(b)))
  {
    hide BitOf, BitAt, LongAt;
    forall x: nat, y: nat, z: nat | x < 5 && y < 5 && z < 64
      ensures CubeOf(Sha3.LanesOf(b))(x, y, z) == Array(BitsOf(b))(x, y, z)
    {
      LongBit(b, x + 5 * y, z);
    }
  }

  /** A bit of the bytes is the bit of its lane. */
  lemma LaneBit(a: seq<Long>, i: nat)
    requires K.IsState(a) && i < 1600
    ensures BitAt(Sha3.BytesOf(a), i) == CubeOf(a)(i / 64 % 5, i / 64 / 5, i % 64)
  {
    hide BitOf, BitAt, LongAt, Sha3.BytesOf;
    var j, z := i / 64, i % 64;
    Sha3.LaneOfBytes(a, j);
    LongBit(Sha3.BytesOf(a), j, z);
    assert j % 5 + 5 * (j / 5) == j;
  }

  /** The permutation on bytes is the permutation on their bits. */
  lemma KeccakOnBits(b: S.Lanes)
    ensures BitsOf(Sha3.KeccakBytes(b)) == KeccakF(BitsOf(b))
  {
    hide BitAt, CubeOf, Array, Rounds, K.Rounds, Sha3.BytesOf, Sha3.LanesOf;
    var s := Sha3.LanesOf(b);
    ArrayIsCube(b);
    RoundsOnBits(s, Array(BitsOf(b)), 24);
    var t := K.Rounds(s, 24);
    forall i | 0 <= i < 1600
      ensures BitAt(Sha3.BytesOf(t), i) == Rounds(Array(BitsOf(b)), 24)(i / 64 % 5, i / 64 / 5, i % 64)
    {
      LaneBit(t, i);
    }
  }

  // ----- Absorbing

  /** Every bit of the state is zero before the first block. */
  lemma ZeroOnBits()
    ensures BitsOf(S.Zero()) == seq(1600, _ => false)
  {
    forall i | 0 <= i < 1600
      ensures !BitAt(S.Zero(), i)
    {
      NoBit(i % 8);
    }
  }

  lemma NoBit(k: nat)
    requires k < 8
    ensures !OctetBit(0, k)
  {
  }

  lemma XorOnBits(a: S.Lanes, b: seq<Octet>)
    requires |b| <= 200
    ensures BitsOf(S.XorIn(a, b)) == Added(BitsOf(a), BitsOf(b))
  {
    hide OctetBit, Plus;
    forall i | 0 <= i < 1600
      ensures BitAt(S.XorIn(a, b), i) == Plus(BitAt(a, i), i < 8 * |b| && BitAt(b, i))
    {
      if i < 8 * |b| {
        OctetXor(a[i / 8], b[i / 8], i % 8);
      } else {
        NoPlus(BitAt(a, i));
      }
    }
  }

  /** So the first block is absorbed as it is, followed by the zeros of the capacity. */
  lemma FirstBlock(b: seq<Octet>)
    requires |b| <= 200
    ensures BitsOf(S.XorIn(S.Zero(), b)) == BitsOf(b) + seq(1600 - 8 * |b|, _ => false)
  {
    hide BitAt;
    ZeroOnBits();
    XorOnBits(S.Zero(), b);
  }

  lemma BitsSlice(s: seq<Octet>, i: nat, j: nat)
    requires i <= j <= |s|
    ensures BitsOf(s[i..j]) == BitsOf(s)[8 * i..8 * j]
  {
    hide OctetBit;
    forall n | 0 <= n < 8 * (j - i)
      ensures BitAt(s[i..j], n) == BitAt(s, 8 * i + n)
    {
      assert (8 * i + n) / 8 == i + n / 8 && (8 * i + n) % 8 == n % 8;
    }
  }

  lemma {:induction false} AbsorbOnBits(rate: nat, m: seq<Octet>)
    requires 0 < rate <= 200
    ensures BitsOf(S.Absorb(Sha3.KeccakBytes, rate, m)) == Absorbed(8 * rate, BitsOf(m))
    decreases |m|
  {
    hide Sha3.KeccakBytes, KeccakF, S.XorIn, Added, BitsOf;
    if |m| < rate {
      ZeroOnBits();
    } else {
      var n := |m| - rate;
      AbsorbOnBits(rate, m[..n]);
      BitsSlice(m, 0, n);
      BitsSlice(m, n, |m|);
      assert m[0..n] == m[..n] && m[n..|m|] == m[n..];
      assert BitsOf(m)[0..8 * n] == BitsOf(m)[..8 * n] && BitsOf(m)[8 * n..8 * |m|] == BitsOf(m)[8 * n..];
      var a := S.Absorb(Sha3.KeccakBytes, rate, m[..n]);
      XorOnBits(a, m[n..]);
      KeccakOnBits(S.XorIn(a, m[n..]));
    }
  }

  // ----- Squeezing

  lemma {:induction false} IterateInside(f: S.Lanes -> S.Lanes, n: nat, a: S.Lanes)
    ensures S.Iterate(f, n + 1, a) == S.Iterate(f, n, f(a))
  {
    if n > 0 {
      IterateInside(f, n - 1, a);
    } else {
      assert S.Iterate(f, 0, a) == a;
    }
  }

  lemma FirstOutput(f: S.Lanes -> S.Lanes, rate: nat, a: S.Lanes, n: nat)
    requires 0 < rate <= 200 && n <= rate
    ensures S.Squeeze(f, rate, a, 0, n) == a[..n]
  {
    forall i | 0 <= i < n
      ensures S.OutputAt(f, rate, a, i) == a[i]
    {
      S.DivModUnique(0, i, rate);
    }
  }

  lemma NextOutputAt(f: S.Lanes -> S.Lanes, rate: nat, a: S.Lanes, i: nat)
    requires 0 < rate <= 200
    ensures S.OutputAt(f, rate, a, rate + i) == S.OutputAt(f, rate, f(a), i)
  {
    hide S.Iterate;
    var q, o := S.BlockOf(i, rate), S.PlaceOf(i, rate);
    assert rate * (q + 1) + o == rate + i;
    S.DivModUnique(q + 1, o, rate);
    hide S.BlockOf, S.PlaceOf;
    IterateInside(f, q, a);
  }

  /** What comes after a block is the output from the permuted state. */
  lemma NextOutput(f: S.Lanes -> S.Lanes, rate: nat, a: S.Lanes, n: nat)
    requires 0 < rate <= 200
    ensures S.Squeeze(f, rate, a, rate, n) == S.Squeeze(f, rate, f(a), 0, n)
  {
    hide S.OutputAt;
    forall i | 0 <= i < n
      ensures S.OutputAt(f, rate, a, rate + i) == S.OutputAt(f, rate, f(a), i)
    {
      NextOutputAt(f, rate, a, i);
    }
  }

  lemma BitsJoin(s: seq<Octet>, t: seq<Octet>)
    ensures BitsOf(s + t) == BitsOf(s) + BitsOf(t)
  {
    hide OctetBit;
    forall i | 0 <= i < 8 * |s + t|
      ensures BitAt(s + t, i) == (BitsOf(s) + BitsOf(t))[i]
    {
      S.BitAtJoin(s, t, i);
    }
  }

  lemma {:induction false} SqueezeOnBits(rate: nat, a: S.Lanes, n: nat)
    requires 0 < rate <= 200
    ensures BitsOf(S.Squeeze(Sha3.KeccakBytes, rate, a, 0, n)) == Squeezed(8 * rate, BitsOf(a), 8 * n)
    decreases n
  {
    hide Sha3.KeccakBytes, KeccakF, BitsOf, S.Squeeze;
    var f := Sha3.KeccakBytes;
    if n <= rate {
      FirstOutput(f, rate, a, n);
      BitsSlice(a, 0, n);
      assert a[0..n] == a[..n] && BitsOf(a)[0..8 * n] == BitsOf(a)[..8 * n];
    } else {
      S.SqueezeJoins(f, rate, a, 0, rate, n - rate);
      FirstOutput(f, rate, a, rate);
      NextOutput(f, rate, a, n - rate);
      BitsJoin(a[..rate], S.Squeeze(f, rate, f(a), 0, n - rate));
      BitsSlice(a, 0, rate);
      assert a[0..rate] == a[..rate] && BitsOf(a)[0..8 * rate] == BitsOf(a)[..8 * rate];
      KeccakOnBits(a);
      SqueezeOnBits(rate, f(a), n - rate);
    }
  }

  // ----- Padding

  /** The only number of zeros that fills the block. */
  lemma PadSize(x: nat, m: nat, size: nat)
    requires x > 0 && size % x == 0 && m + 2 <= size < m + 2 + x
    ensures |Pad101(x, m)| == size - m
  {
    var e, p, q := (m + 2) % x, (m + 2) / x, size / x;
    assert m + 2 == x * p + e && size == x * q;
    var d: int := q - p;
    assert size - (m + 2) == x * d - e by { assert x * q - x * p == x * d; }
    assert d >= 2 ==> x * d >= 2 * x;
    assert d <= -1 ==> x * d + x <= 0;
    if e == 0 {
      assert d == 0;
      assert x % x == 0;
    } else {
      assert d == 1 by { assert d == 0 ==> x * d == 0; }
      assert (x - e) % x == x - e;
    }
  }

  lemma PadOnBits(m: seq<Octet>, ds: Octet, t: nat, rate: nat)
    requires rate > 0 && S.Separator(ds, t)
    ensures t < 7 && BitsOf(S.Pad(m, ds, rate)) ==
            var n := BitsOf(m) + BitsOf([ds])[..t]; n + Pad101(8 * rate, |n|)
  {
    assert t < 7;
    hide BitAt, S.Separator, S.Pad;
    var p := S.Pad(m, ds, rate);
    var n := BitsOf(m) + BitsOf([ds])[..t];
    S.PadIsPad10Star1(m, ds, t, rate, 0);
    assert 8 * |p| % (8 * rate) == 0 by { EightTimes(|p|, rate); }
    PadSize(8 * rate, |n|, 8 * |p|);
    var r := n + Pad101(8 * rate, |n|);
    forall i | 0 <= i < 8 * |p|
      ensures BitAt(p, i) == r[i]
    {
      S.PadIsPad10Star1(m, ds, t, rate, i);
    }
  }

  lemma EightTimes(n: nat, rate: nat)
    requires rate > 0 && n % rate == 0
    ensures 8 * n % (8 * rate) == 0
  {
    var q := n / rate;
    assert 8 * n == (8 * rate) * q;
    S.MultipleOf(8 * rate, q);
  }

  // ----- The whole

  /** For every rate, every separator of t suffix bits, every message and every length of
      output: the bits of the sponge on bytes are those of SPONGE on the bits. */
  lemma HashOnBits(rate: nat, ds: Octet, t: nat, m: seq<Octet>, n: nat)
    requires 0 < rate <= 200 && S.Separator(ds, t)
    ensures t < 7 && BitsOf(S.Hash(Sha3.KeccakBytes, rate, ds, m, n)) == SpongeOf(8 * rate, BitsOf(m) + BitsOf([ds])[..t], 8 * n)
  {
    hide BitsOf, S.Pad, S.Separator, S.Absorb, Absorbed, S.Squeeze, Squeezed, Pad101;
    PadOnBits(m, ds, t, rate);
    AbsorbOnBits(rate, S.Pad(m, ds, rate));
    SqueezeOnBits(rate, S.Absorb(Sha3.KeccakBytes, rate, S.Pad(m, ds, rate)), n);
  }

  /** Section 6.1 of FIPS 202: with its rate and separator it is SHA3-224, SHA3-256,
      SHA3-384 and SHA3-512. */
  lemma DigestOnBits(d: nat, m: seq<Octet>)
    requires d == 28 || d == 32 || d == 48 || d == 64
    ensures BitsOf(S.Hash(Sha3.KeccakBytes, Sha3.Rate(d), 0x06, m, d)) == Sha3Of(8 * d, BitsOf(m))
  {
    hide S.Hash, SpongeOf, BitAt, S.Separator;
    Sha3.Sha3Parameters(d);
    HashOnBits(Sha3.Rate(d), 0x06, 2, m, d);
    assert BitsOf([0x06])[..2] == [false, true];
  }

  /** The digest of a message cut into any pieces, bit by bit. */
  method Digest(d: nat, ps: seq<seq<Octet>>) returns (digest: seq<Octet>)
    requires d == 28 || d == 32 || d == 48 || d == 64
    ensures BitsOf(digest) == Sha3Of(8 * d, BitsOf(Pieces.Flat(ps)))
  {
    hide S.Hash, Sha3Of;
    digest := Sha3.Sum(d, ps);
    DigestOnBits(d, Pieces.Flat(ps));
  }

  /** SHAKE128 and SHAKE256 of section 6.2: the message is followed by 1111, and the output
      goes on as long as it is read. */
  function ShakeOf(strength: nat, m: BitString, d: nat): (z: BitString)
    requires 2 * strength < 1600
  {
    SpongeOf(1600 - 2 * strength, m + [true, true, true, true], d)
  }

  lemma ShakeSuffix()
    ensures S.Separator(0x1F, 4) && BitsOf([0x1F])[..4] == [true, true, true, true]
  {
  }

  lemma NoSuffix()
    ensures S.Separator(0x01, 0)
  {
  }

  method Shake(strength: nat, ps: seq<seq<Octet>>, ns: seq<nat>) returns (out: seq<Octet>)
    requires strength == 128 || strength == 256
    ensures BitsOf(out) == ShakeOf(strength, BitsOf(Pieces.Flat(ps)), 8 * Pieces.Total(ns))
  {
    hide S.Hash, SpongeOf, BitAt, S.Separator, Sha3.KeccakBytes;
    var rate := if strength == 128 then 168 else 136;
    var sums;
    out, sums := S.HashInPieces(Sha3.KeccakBytes, rate, 0x1F, 0, ps, ns);
    ShakeSuffix();
    HashOnBits(rate, 0x1F, 4, Pieces.Flat(ps), Pieces.Total(ns));
  }

  /** The older Keccak-256 and Keccak-512: nothing is between the message and its padding. */
  function LegacyOf(d: nat, m: BitString): (z: BitString)
    requires 2 * d < 1600
  {
    SpongeOf(1600 - 2 * d, m, d)
  }

  /** Addresses, code hashes and trie keys of the node are such digests. */
  method LegacyKeccak(d: nat, ps: seq<seq<Octet>>) returns (digest: seq<Octet>)
    requires d == 32 || d == 64
    ensures BitsOf(digest) == LegacyOf(8 * d, BitsOf(Pieces.Flat(ps)))
  {
    hide S.Hash, S.SumsOf, S.PlaceOf, S.Squeeze, S.Absorb, S.Pad, S.State.Valid, Pieces.Flat, Sha3.KeccakBytes, LegacyOf;
    var rate := if d == 32 then 136 else 72;
    var h := new S.State(Sha3.KeccakBytes, rate, 0x01, d);
    var sums := S.WriteInPieces(h, ps);
    var sum := h.Sum([]);
    digest := sum.value;
    LegacyOnBits(d, rate, Pieces.Flat(ps));
  }

  lemma LegacyOnBits(d: nat, rate: nat, m: seq<Octet>)
    requires (d == 32 && rate == 136) || (d == 64 && rate == 72)
    ensures BitsOf(S.Hash(Sha3.KeccakBytes, rate, 0x01, m, d)) == LegacyOf(8 * d, BitsOf(m))
  {
    hide S.Hash, SpongeOf, BitAt, S.Separator, Sha3.KeccakBytes;
    NoSuffix();
    HashOnBits(rate, 0x01, 0, m, d);
    assert BitsOf(m) + BitsOf([0x01])[..0] == BitsOf(m);
  }
}
