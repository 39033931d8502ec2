/** The sponge over Keccak-f: lanes as little-endian bytes, and the functions of hashes.go. */
module Sha3 {
  import opened Bits
  import opened Keccak
  import opened Longs
  import Sponge
  import Pieces
  import opened Wrappers

  lemma XorBytes(a: Lane, b: Lane, i: nat)
    requires i < 8
    ensures ByteOf(Xor(a, b), i) == ByteOf(a, i) ^ ByteOf(b, i)
  {
    match i { case 0 => case 1 => case 2 => case 3 => case 4 => case 5 => case 6 => case 7 => }
  }

  // ----- The state as lanes and as bytes

  function LanesOf(b: seq<Octet>): (a: seq<Lane>)
    requires |b| == 200
    ensures IsState(a)
  {
    seq(25, i requires 0 <= i < 25 => LongAt(b, i))
  }

  function BytesOf(a: seq<Lane>): (b: Sponge.Lanes)
    requires IsState(a)
  {
    seq(200, j requires 0 <= j < 200 => ByteOf(a[j / 8], j % 8))
  }

  /** The two forms of the state are one to one. */
  lemma BytesOfLanes(b: Sponge.Lanes)
    ensures BytesOf(LanesOf(b)) == b
  {
    hide ByteOf, LongAt;
    var c := BytesOf(LanesOf(b));
    forall j | 0 <= j < 200
      ensures c[j] == b[j]
    {
      LongAtByte(b, j / 8, j % 8);
    }
  }

  lemma ByteAt(a: seq<Lane>, i: nat, k: nat)
    requires IsState(a) && i < 25 && k < 8
    ensures BytesOf(a)[8 * i + k] == ByteOf(a[i], k)
  {
    hide ByteOf;
    assert (8 * i + k) / 8 == i && (8 * i + k) % 8 == k;
  }

  lemma LanesOfBytes(a: seq<Lane>)
    requires IsState(a)
    ensures LanesOf(BytesOf(a)) == a
  {
    forall i | 0 <= i < 25
      ensures LanesOf(BytesOf(a))[i] == a[i]
    {
      LaneOfBytes(a, i);
    }
  }

  lemma LaneOfBytes(a: seq<Lane>, i: nat)
    requires IsState(a) && i < 25
    ensures LongAt(BytesOf(a), i) == a[i]
  {
    hide ByteOf, LongOf, BytesOf;
    ByteRoundTrip(a[i]);
    ByteAt(a, i, 0);
    ByteAt(a, i, 1);
    ByteAt(a, i, 2);
    ByteAt(a, i, 3);
    ByteAt(a, i, 4);
    ByteAt(a, i, 5);
    ByteAt(a, i, 6);
    ByteAt(a, i, 7);
  }

  /** Keccak-f on the bytes of the state. */
  function KeccakBytes(b: Sponge.Lanes): (c: Sponge.Lanes)
  {
    BytesOf(Rounds(LanesOf(b), 24))
  }

  /** xorIn, a lane at a time, xors the bytes. */
  method XorIn(a: array<Lane>, buf: seq<Octet>)
    requires a.Length == 25 && |buf| <= 200 && |buf| % 8 == 0
    modifies a
    ensures BytesOf(a[..]) == Sponge.XorIn(BytesOf(old(a[..])), buf)
  {
    hide LongAt, Xor;
    ghost var s := a[..];
    var n := |buf| / 8;
    for i := 0 to n
      invariant forall j :: 0 <= j < i ==> a[j] == Xor(s[j], LongAt(buf, j))
      invariant forall j :: i <= j < 25 ==> a[j] == s[j]
    {
      a[i] := Xor(a[i], LongAt(buf, i));
    }
    XoredBytes(s, a[..], buf);
  }

  lemma XoredBytes(s: seq<Lane>, t: seq<Lane>, buf: seq<Octet>)
    requires IsState(s) && IsState(t) && |buf| <= 200 && |buf| % 8 == 0
    requires forall j :: 0 <= j < |buf| / 8 ==> t[j] == Xor(s[j], LongAt(buf, j))
    requires forall j :: |buf| / 8 <= j < 25 ==> t[j] == s[j]
    ensures BytesOf(t) == Sponge.XorIn(BytesOf(s), buf)
  {
    hide ByteOf, LongAt, Xor;
    var b, c := BytesOf(t), Sponge.XorIn(BytesOf(s), buf);
    forall j | 0 <= j < 200
      ensures b[j] == c[j]
    {
      var i, k := j / 8, j % 8;
      if i < |buf| / 8 {
        assert t[i] == Xor(s[i], LongAt(buf, i));
        XoredByte(s[i], t[i], buf, i, k);
      } else {
        assert t[i] == s[i];
      }
    }
  }

  lemma XoredByte(a: Lane, b: Lane, buf: seq<Octet>, i: nat, k: nat)
    requires 8 * i + 7 < |buf| && k < 8 && b == Xor(a, LongAt(buf, i))
    ensures ByteOf(b, k) == ByteOf(a, k) ^ buf[8 * i + k]
  {
    hide ByteOf, LongAt, Xor;
    LongAtByte(buf, i, k);
    XorBytes(a, LongAt(buf, i), k);
  }

  /** permute on the lanes. */
  method Permute(a: array<Lane>)
    requires a.Length == 25
    modifies a
    ensures BytesOf(a[..]) == KeccakBytes(BytesOf(old(a[..])))
  {
    hide Rounds;
    LanesOfBytes(a[..]);
    KeccakF1600(a);
  }

  /** copyOut fills whole words of b, from which the lanes read back, and leaves what is
      left over. */
  method CopyOut(a: array<Lane>, b: array<Octet>)
    requires a.Length == 25 && b.Length <= 200
    modifies b
    ensures var n := b.Length / 8 * 8;
            b[..] == BytesOf(a[..])[..n] + old(b[n..])
    ensures forall i :: 0 <= i < b.Length / 8 ==> LongAt(b[..], i) == a[i]
  {
    hide ByteOf, LongAt;
    var i := 0;
    while b.Length - 8 * i >= 8
      invariant 8 * i <= b.Length
      invariant forall j :: 0 <= j < 8 * i ==> b[j] == ByteOf(a[j / 8], j % 8)
      invariant forall j :: 8 * i <= j < b.Length ==> b[j] == old(b[j])
    {
      PutLong(b, 8 * i, a[i]);
      i := i + 1;
    }
    ghost var t := b[..];
    forall j | 0 <= j < i
      ensures LongAt(t, j) == a[j]
    {
      ReadBack(t, j, a[j]);
    }
  }

  /** binary.LittleEndian.PutUint64 */
  method PutLong(b: array<Octet>, at: nat, v: Long)
    requires at + 8 <= b.Length && at % 8 == 0
    modifies b
    ensures forall j :: at <= j < at + 8 ==> b[j] == ByteOf(v, j % 8)
    ensures forall j :: 0 <= j < b.Length && !(at <= j < at + 8) ==> b[j] == old(b[j])
  {
    hide ByteOf;
    for k := 0 to 8
      invariant forall j :: at <= j < at + k ==> b[j] == ByteOf(v, j % 8)
      invariant forall j :: 0 <= j < b.Length && !(at <= j < at + k) ==> b[j] == old(b[j])
    {
      assert (at + k) % 8 == k;
      b[at + k] := ByteOf(v, k);
    }
  }

  lemma ReadBack(b: seq<Octet>, i: nat, v: Long)
    requires 8 * i + 7 < |b| && forall k :: 8 * i <= k < 8 * i + 8 ==> b[k] == ByteOf(v, k % 8)
    ensures LongAt(b, i) == v
  {
    hide ByteOf, LongOf;
    ByteRoundTrip(v);
    assert (8 * i) % 8 == 0 && (8 * i + 1) % 8 == 1 && (8 * i + 2) % 8 == 2 && (8 * i + 3) % 8 == 3;
    assert (8 * i + 4) % 8 == 4 && (8 * i + 5) % 8 == 5 && (8 * i + 6) % 8 == 6 && (8 * i + 7) % 8 == 7;
  }

  // ----- SHA-3

  /** The rates of hashes.go. */
  function Rate(d: nat): (rate: nat)
    requires d == 28 || d == 32 || d == 48 || d == 64
    ensures 0 < rate < Sponge.MAX_RATE && rate % 8 == 0
  {
    match d
    case 28 => 144
    case 32 => 136
    case 48 => 104
    case 64 => 72
  }

  /** Section 6.1 of FIPS 202: the capacity is twice the digest, and the message is
      followed by 01 and the padding. */
  lemma Sha3Parameters(d: nat)
    requires d == 28 || d == 32 || d == 48 || d == 64
    ensures Rate(d) == 200 - 2 * d
    ensures Sponge.Separator(0x06, 2) && !BitAt([0x06], 0) && BitAt([0x06], 1)
  {
    assert Sponge.Separator(0x06, 2);
  }

  /** So a sum right after a read of nothing or of whole blocks, or of little more, panics. */
  lemma SumPanics(d: nat, pos: nat, m: seq<Octet>)
    requires d == 28 || d == 32 || d == 48 || d == 64
    requires Sponge.PlaceOf(pos, Rate(d)) < 2 * d - 32
    ensures Sponge.PlaceOf(0, Rate(d)) < 2 * d - 32
    ensures Sponge.SumOf(KeccakBytes, Rate(d), 0x06, m, true, pos, d) == None
  {
    hide KeccakBytes;
    Sha3Parameters(d);
    Sponge.NeverGoesOn(Rate(d), 0x06, pos, d);
  }

  /** The digest of a message cut into any pieces is SHA-3 of the whole. */
  method Sum(d: nat, ps: seq<seq<Octet>>) returns (digest: seq<Octet>)
    requires d == 28 || d == 32 || d == 48 || d == 64
    ensures digest == Sponge.Hash(KeccakBytes, Rate(d), 0x06, Pieces.Flat(ps), d)
  {
    hide Sponge.Hash, Sponge.SumsOf, Sponge.PlaceOf, Sponge.Squeeze, Sponge.Absorb, Sponge.Pad, Sponge.State.Valid, Pieces.Flat, KeccakBytes, Rate;
    var h := new Sponge.State(KeccakBytes, Rate(d), 0x06, d);
    var sums := Sponge.WriteInPieces(h, ps);
    var sum := h.Sum([]);
    digest := sum.value;
  }
}
