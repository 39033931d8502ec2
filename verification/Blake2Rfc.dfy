/** BLAKE2b and BLAKE2Xb end to end, as section 3.3 of RFC 7693 and the BLAKE2X paper write
    them down: numbered blocks of one padded message, with no buffer and no running counter. */
module Blake2Rfc {
  import opened Bits
  import opened Blake2b
  import opened Blake2x
  import opened Blake2Words
  import opened Congruence
  import opened Longs
  import opened Pieces
  import opened Words
  import F = Blake2F

  /** Block i of a message that goes on with zeros. */
  function Block(d: seq<Octet>, i: nat): (b: seq<Octet>)
    ensures |b| == 128 && forall j :: 0 <= j < 128 ==> b[j] == if 128 * i + j < |d| then d[128 * i + j] else 0
  {
    seq(128, j requires 0 <= j < 128 => if 128 * i + j < |d| then d[128 * i + j] else 0)
  }

  /** The number of blocks, at least one. */
  function Count(n: nat): (dd: nat)
  {
    if n == 0 then 1 else (n + 127) / 128
  }

  /** F with the number of bytes so far in two words, and the flag of the last block. */
  function Next(h: F.Chain, b: seq<Octet>, n: nat, last: bool): (r: F.Chain)
    requires |b| == 128
  {
    F.F(h, LongsOf(b), AsLong(n % 0x1_0000_0000_0000_0000), AsLong(n / 0x1_0000_0000_0000_0000 % 0x1_0000_0000_0000_0000),
        if last then 0xFFFF_FFFF_FFFF_FFFF else 0, 12)
  }

  /** After i blocks, none of them the last. */
  function After(h: F.Chain, d: seq<Octet>, i: nat): (r: F.Chain)
  {
    if i == 0 then h else Next(After(h, d, i - 1), Block(d, i - 1), 128 * i, false)
  }

  function Final(h: F.Chain, d: seq<Octet>): (r: F.Chain)
  {
    var i := Count(|d|) - 1;
    Next(After(h, d, i), Block(d, i), |d|, true)
  }

  // ----- The model agrees

  lemma NextIs(h: F.Chain, b: seq<Octet>, n: nat, last: bool)
    requires |b| == 128
    ensures Compress(h, b, n, last) == Next(h, b, n, last)
  {
    hide F.F, AsLong, LongsOf;
    WordsOfCounter(n);
  }

  lemma WordsOfCounter(n: nat)
    ensures n % W2 % W == n % W && n % W2 / W == n / W % W
  {
    var q, r := n / W, n % W;
    var p, s := q / W, q % W;
    assert n == W2 * p + (W * s + r);
    RemainderUnique(W * s + r, p, W2, n);
    RemainderUnique(r, s, W, W * s + r);
  }

  /** The chain value before block i. */
  lemma {:induction false} AfterIs(h: F.Chain, d: seq<Octet>, i: nat)
    requires 128 * i <= |d|
    ensures ChainOf(h, d[..128 * i]) == After(h, d, i)
  {
    hide Blocks, Compress, Next;
    if i == 0 {
      BlocksNothing(h, 0, false);
      assert d[..0] == [];
    } else {
      var m, b := d[..128 * (i - 1)], Block(d, i - 1);
      AfterIs(h, d, i - 1);
      assert d[..128 * i] == m + b;
      BlocksNext(h, 0, m, b, false);
      NextIs(After(h, d, i - 1), b, 128 * i, false);
    }
  }

  lemma LastStarts(n: nat)
    ensures var k := Before(n); Count(n) >= 1 && k == 128 * (Count(n) - 1)
  {
  }

  lemma PaddedIs(d: seq<Octet>, i: nat)
    requires 128 * i <= |d| <= 128 * i + 128
    ensures ZeroPad(d[128 * i..]) == Block(d, i)
  {
  }

  /** Buffered hashing is that of the numbered blocks. */
  lemma HashIs(h: F.Chain, d: seq<Octet>)
    ensures Hash(h, d) == Final(h, d)
  {
    hide ChainOf, Compress, Next, After, ZeroPad, Count, Before;
    var i := Count(|d|) - 1;
    LastStarts(|d|);
    var k := Before(|d|);
    AfterIs(h, d, i);
    PaddedIs(d, i);
    NextIs(After(h, d, i), Block(d, i), |d|, true);
  }

  // ----- Bytes and words

  /** The words of a block, little-endian. */
  lemma WordBit(b: seq<Octet>, w: nat, z: nat)
    requires |b| == 128 && w < 16 && z < 64
    ensures BitOf(LongsOf(b)[w], z) == OctetBit(b[8 * w + z / 8], z % 8)
  {
    hide LongAt, BitOf, OctetBit;
    LongBit(b, w, z);
  }

  /** And the bytes of a chain value. */
  lemma DigestBit(h: F.Chain, j: nat, k: nat)
    requires j < 64 && k < 8
    ensures OctetBit(BytesOf(h)[j], k) == BitOf(h[j / 8], 8 * (j % 8) + k)
  {
    hide ByteOf, BitOf, OctetBit;
    ByteBit(h[j / 8], j % 8, k);
  }

  // ----- BLAKE2b

  /** The key, in a block of its own if there is one, and the message. */
  function Keyed(key: seq<Octet>, m: seq<Octet>): (d: seq<Octet>)
  {
    (if key == [] then [] else Block(key, 0)) + m
  }

  function Rfc(size: nat, key: seq<Octet>, m: seq<Octet>): (digest: seq<Octet>)
    requires size <= 64 && |key| <= 64
    ensures |digest| == size
  {
    BytesOf(Final(Configured([size as bv8, |key| as bv8, 1, 1] + Zeros(60)), Keyed(key, m)))[..size]
  }

  lemma KeyedIs(key: seq<Octet>, m: seq<Octet>)
    requires |key| <= 64
    ensures KeyBlock(key) + m == Keyed(key, m)
  {
    if key != [] {
      assert key[128 * 0..] == key;
      PaddedIs(key, 0);
    }
  }

  lemma DigestedIs(size: nat, key: seq<Octet>, m: seq<Octet>)
    requires size <= 64 && |key| <= 64
    ensures Digested(Start(size, |key|), KeyBlock(key) + m)[..size] == Rfc(size, key, m)
  {
    hide Hash, Final, BytesOf, Configured, Start, KeyBlock, Keyed, Zeros;
    KeyedIs(key, m);
    StartIs(size, |key|);
    HashIs(Start(size, |key|), Keyed(key, m));
  }

  /** The digest and every sum on the way, of a message in any pieces, and the one-shot
      checksum, are those of RFC 7693. */
  method HashPieces(size: nat, key: seq<Octet>, ps: seq<seq<Octet>>) returns (digest: seq<Octet>, sums: seq<seq<Octet>>)
    requires size <= 64 && |key| <= 64
    ensures digest == Rfc(size, key, Flat(ps))
    ensures |sums| == |ps| && forall i :: 0 <= i < |ps| ==> sums[i] == Rfc(size, key, Flat(ps[..i]))
  {
    hide Digested, Rfc, Start, KeyBlock;
    var once;
    digest, once, sums := DigestInPieces(size, key, ps);
    DigestedIs(size, key, Flat(ps));
    forall i | 0 <= i < |ps|
      ensures sums[i] == Rfc(size, key, Flat(ps[..i]))
    {
      DigestedIs(size, key, Flat(ps[..i]));
    }
  }

  method Checksum(size: nat, m: seq<Octet>) returns (digest: seq<Octet>)
    requires size <= 64
    ensures digest == Rfc(size, [], m)
  {
    hide Digested, Rfc, Start, KeyBlock;
    var sum := CheckSum(size, m);
    digest := sum[..size];
    DigestedIs(size, [], m);
    assert KeyBlock([]) + m == m by { Unkeyed([], m); }
  }

  // ----- BLAKE2Xb

  /** The bytes that an output of the given length, or of unknown length, has. */
  function Bound(length: nat): (n: nat)
  {
    if length == 0xFFFF_FFFF then 0x40_0000_0000 else length
  }

  function RootHash(key: seq<Octet>, length: nat, m: seq<Octet>): (root: Sum64)
    requires |key| <= 64 && length < W32
  {
    BytesOf(Final(Configured([64, |key| as bv8, 1, 1] + Zeros(8) + Bytes32(length) + Zeros(48)), Keyed(key, m)))
  }

  /** Node i hashes the root; the last one may be short. */
  function NodeHash(length: nat, root: seq<Octet>, i: nat): (b: Sum64)
    requires length < W32 && 64 * i < Bound(length)
  {
    var size := if Bound(length) - 64 * i < 64 then Bound(length) - 64 * i else 64;
    BytesOf(Final(Configured(Config(size, i, length)), root))
  }

  /** Byte i of the output. */
  function Output(key: seq<Octet>, length: nat, m: seq<Octet>, i: nat): (b: Octet)
    requires |key| <= 64 && length < W32 && i < Bound(length)
  {
    NodeHash(length, RootHash(key, length, m), i / 64)[i % 64]
  }

  lemma RootIs(x: Params, m: seq<Octet>)
    requires Fits(x)
    ensures RootOf(x, m) == RootHash(x.key, x.length, m)
  {
    hide Hash, Final, BytesOf, Configured, RootStart, KeyBlock, Keyed, Zeros, Bytes32;
    KeyedIs(x.key, m);
    RootStartIs(x);
    HashIs(RootStart(x), Keyed(x.key, m));
  }

  lemma NodeHashIs(x: Params, root: seq<Octet>, i: nat)
    requires x.length < W32 && 64 * i < Bound(x.length)
    ensures Node(x, root, i) == NodeHash(x.length, root, i)
  {
    hide Hash, Final, BytesOf, Configured, Config;
    HashIs(Configured(Config(NodeSize(OutputLength(x.length), i), i, x.length)), root);
  }

  lemma OutputIs(x: Params, m: seq<Octet>, out: seq<Octet>)
    requires Fits(x) && |out| <= Bound(x.length) && out == Stream(x, RootOf(x, m), 0, |out|)
    ensures IsOutput(x.key, x.length, m, out)
  {
    hide Node, NodeHash, RootOf, RootHash;
    RootIs(x, m);
    forall i | 0 <= i < |out|
      ensures out[i] == Output(x.key, x.length, m, i)
    {
      NodeHashIs(x, RootOf(x, m), i / 64);
    }
  }

  /** The first bytes of the output, as many as there are. */
  ghost predicate IsOutput(key: seq<Octet>, length: nat, m: seq<Octet>, out: seq<Octet>)
    requires |key| <= 64 && length < W32
  {
    |out| <= Bound(length) && forall i :: 0 <= i < |out| ==> out[i] == Output(key, length, m, i)
  }

  /** The output for a message written in any pieces, read in any pieces: for length 0 that
      of unknown length. */
  method Expand(length: nat, key: seq<Octet>, ps: seq<seq<Octet>>, ns: seq<nat>) returns (r: Result<seq<Octet>>)
    requires length < W32
    ensures r.Err? <==> |key| > 64 || length == 0xFFFF_FFFF
    ensures r.Ok? ==>
              var known := if length == 0 then 0xFFFF_FFFF else length;
              && |r.value| == (if Total(ns) <= Bound(known) then Total(ns) else Bound(known))
              && IsOutput(key, known, Flat(ps), r.value)
  {
    hide Xof.Reading, Xof.Writing, Shaped, Digest.Valid, Stream, RootOf, IsOutput;
    var made := NewXOF(length, key);
    if made.Err? {
      return Err(made.error);
    }
    var f := made.value;
    for i := 0 to |ps|
      invariant fresh(f) && fresh(f.d) && f.Valid() && !f.readMode && f.msg == Flat(ps[..i])
    {
      assert ps[..i + 1][..i] == ps[..i];
      var ok := f.Write(ps[i]);
    }
    assert ps[..|ps|] == ps;
    var out := ReadInPieces(f, ns);
    OutputIs(f.x, Flat(ps), out);
    return Ok(out);
  }
}
