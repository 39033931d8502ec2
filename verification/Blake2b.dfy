/** BLAKE2b (RFC 7693): the buffered digest and the one-shot checksum, with the 128-bit byte
    counter kept in two 64-bit words. */
module Blake2b {
  import opened Congruence
  import opened Words
  import opened Longs
  import opened Pieces
  import opened Blake2F

  const BLOCK: nat := 128
  const SIZE: nat := 64

  type Sum64 = s: seq<Octet> | |s| == 64 witness seq(64, _ => 0)

  datatype Error = KeySize | HashSize | LengthTooLarge
  datatype Result<+T> = Ok(value: T) | Err(error: Error)

  // ----- Section 3.3 of RFC 7693

  /** The chain value that the first parameter word gives: digest size and key length,
      fanout and depth one. */
  function Start(size: nat, keyLen: nat): (h: Chain)
    requires size <= SIZE && keyLen <= SIZE
  {
    IV[0 := Xor(IV[0], ((size as bv64) | ((keyLen as bv64) << 8) | (1 << 16) | (1 << 24)))]
  }

  /** The words of a block. */
  function LongsOf(b: seq<Octet>): (m: seq<Long>)
    requires |b| == BLOCK
    ensures |m| == 16
  {
    seq(16, j requires 0 <= j < 16 => LongAt(b, j))
  }

  function IfBit(v: bool, m: Octet): (b: Octet) { if v then m else 0 }

  function OctetOfMasks(b0: bool, b1: bool, b2: bool, b3: bool, b4: bool, b5: bool, b6: bool, b7: bool): (b: Octet)
  {
    IfBit(b0, 0x01) | IfBit(b1, 0x02) | IfBit(b2, 0x04) | IfBit(b3, 0x08)
    | IfBit(b4, 0x10) | IfBit(b5, 0x20) | IfBit(b6, 0x40) | IfBit(b7, 0x80)
  }

  /** A number below 256 by its binary digits. */
  function OctetOf(x: nat): (b: Octet)
  {
    OctetOfMasks(x % 2 == 1, x / 2 % 2 == 1, x / 4 % 2 == 1, x / 8 % 2 == 1,
                 x / 16 % 2 == 1, x / 32 % 2 == 1, x / 64 % 2 == 1, x / 128 % 2 == 1)
  }

  /** Byte i of a number, from the least significant. */
  function NumByte(c: Word, i: nat): (b: Octet)
    requires i < 8
  {
    match i
    case 0 => OctetOf(c % 0x100)
    case 1 => OctetOf(c / 0x100 % 0x100)
    case 2 => OctetOf(c / 0x1_0000 % 0x100)
    case 3 => OctetOf(c / 0x100_0000 % 0x100)
    case 4 => OctetOf(c / 0x1_0000_0000 % 0x100)
    case 5 => OctetOf(c / 0x100_0000_0000 % 0x100)
    case 6 => OctetOf(c / 0x1_0000_0000_0000 % 0x100)
    case 7 => OctetOf(c / 0x100_0000_0000_0000 % 0x100)
  }

  /** A 64-bit number as the word of its bytes. */
  function AsLong(c: Word): (r: Long)
  {
    LongOf(NumByte(c, 0), NumByte(c, 1), NumByte(c, 2), NumByte(c, 3),
           NumByte(c, 4), NumByte(c, 5), NumByte(c, 6), NumByte(c, 7))
  }

  function Flag(last: bool): (r: Long) { if last then 0xFFFF_FFFF_FFFF_FFFF else 0 }

  /** The compression of a block after which n message bytes are done, n modulo 2^128. */
  function Compress(h: Chain, b: seq<Octet>, n: int, last: bool): (r: Chain)
    requires |b| == BLOCK
  {
    F(h, LongsOf(b), AsLong(n % W2 % W), AsLong(n % W2 / W), Flag(last), 12)
  }

  /** Whole blocks that follow n bytes. */
  function Blocks(h: Chain, n: int, m: seq<Octet>, last: bool): (r: Chain)
  {
    if |m| < BLOCK then h
    else Compress(Blocks(h, n, m[..|m| - BLOCK], last), m[|m| - BLOCK..], n + |m|, last)
  }

  /** All whole blocks of a message, none of them the last. */
  function ChainOf(h: Chain, m: seq<Octet>): (r: Chain)
  {
    Blocks(h, 0, m, false)
  }

  function ZeroPad(b: seq<Octet>): (p: seq<Octet>)
    requires |b| <= BLOCK
    ensures |p| == BLOCK
  {
    b + seq(BLOCK - |b|, _ => 0)
  }

  /** The bytes before the last block, which is empty only for the empty message. */
  function Before(n: nat): (k: nat)
    ensures k <= n && k % BLOCK == 0 && n - k <= BLOCK && (n > 0 ==> n > k)
  {
    if n == 0 then 0 else (n - 1) / BLOCK * BLOCK
  }

  function Hash(h: Chain, m: seq<Octet>): (r: Chain)
  {
    var k := Before(|m|);
    Compress(ChainOf(h, m[..k]), ZeroPad(m[k..]), |m|, true)
  }

  /** The little-endian bytes of a chain value. */
  function BytesOf(h: Chain): (b: Sum64)
  {
    seq(64, j requires 0 <= j < 64 => ByteOf(h[j / 8], j % 8))
  }

  /** The digest of a message from a start value. */
  function Digested(h: Chain, m: seq<Octet>): (b: Sum64)
  {
    BytesOf(Hash(h, m))
  }

  lemma BlocksNext(h: Chain, n: int, m: seq<Octet>, b: seq<Octet>, last: bool)
    requires |b| == BLOCK
    ensures Blocks(h, n, m + b, last) == Compress(Blocks(h, n, m, last), b, n + |m| + BLOCK, last)
  {
    hide Compress;
    assert (m + b)[..|m|] == m && (m + b)[|m|..] == b;
  }

  /** Blocks in two parts. */
  lemma {:induction false} BlocksSplit(h: Chain, n: int, m: seq<Octet>, b: seq<Octet>, last: bool)
    requires |m| % BLOCK == 0 && |b| % BLOCK == 0
    ensures Blocks(h, n, m + b, last) == Blocks(Blocks(h, n, m, last), n + |m|, b, last)
    decreases |b|
  {
    hide Compress, Blocks;
    if |b| < BLOCK {
      assert b == [] && m + b == m;
      BlocksNothing(Blocks(h, n, m, last), n + |m|, last);
    } else {
      var k := |b| - BLOCK;
      assert m + b == m + b[..k] + b[k..] && b == b[..k] + b[k..];
      BlocksSplit(h, n, m, b[..k], last);
      BlocksNext(h, n, m + b[..k], b[k..], last);
      BlocksNext(Blocks(h, n, m, last), n + |m|, b[..k], b[k..], last);
    }
  }

  /** Where the last block starts is known from either side of it. */
  lemma BeforeUnique(k: nat, n: nat)
    requires k % BLOCK == 0 && k <= n <= k + BLOCK && (k == n ==> n == 0)
    ensures Before(n) == k
  {
  }

  // ----- The counter

  ghost predicate Counts(c0: Word, c1: Word, n: int)
  {
    c0 + W * c1 == n % W2
  }

  lemma NoneCounted()
    ensures Counts(0, 0, 0)
  {
  }

  lemma ModShift(x: int, k: int, m: int)
    requires m > 0
    ensures (x % m + k) % m == (x + k) % m
  {
    CongMod(x, m);
    CongRefl(k, m);
    CongAdd(x % m, x, k, k, m);
    CongMod(x % m + k, m);
    CongMod(x + k, m);
    CongTrans((x % m + k) % m, x % m + k, x + k, m);
    CongSym((x + k) % m, x + k, m);
    CongTrans((x % m + k) % m, x + k, (x + k) % m, m);
    CongReduced((x % m + k) % m, (x + k) % m, m);
  }

  /** The two words of a counter. */
  lemma CounterWords(c0: Word, c1: Word, n: int)
    requires Counts(c0, c1, n)
    ensures n % W2 % W == c0 && n % W2 / W == c1
  {
  }

  lemma Wrap(v: int, m: int)
    requires m > 0 && -m <= v < 2 * m
    ensures v % m == if v < 0 then v + m else if v >= m then v - m else v
  {
    var k := if v < 0 then -1 else if v >= m then 1 else 0;
    RemainderUnique(v - m * k, k, m, v);
  }

  /** Adding a block, with the carry seen by wrap-around. */
  method CountUp(c0: Word, c1: Word, ghost n: int) returns (d0: Word, d1: Word)
    requires Counts(c0, c1, n)
    ensures Counts(d0, d1, n + BLOCK)
  {
    d0 := (c0 + BLOCK) % W;
    Wrap(c0 + BLOCK, W);
    d1 := c1;
    if d0 < BLOCK {
      d1 := (c1 + 1) % W;
      Wrap(c1 + 1, W);
    }
    ModShift(n, BLOCK, W2);
    Wrap(c0 + W * c1 + BLOCK, W2);
  }

  /** Taking back what the last block falls short of. */
  method CountDown(c0: Word, c1: Word, k: nat, ghost n: int) returns (d0: Word, d1: Word)
    requires Counts(c0, c1, n) && k <= BLOCK
    ensures Counts(d0, d1, n - k)
  {
    d1 := c1;
    if c0 < k {
      d1 := (c1 - 1) % W;
      Wrap(c1 - 1, W);
    }
    d0 := (c0 - k) % W;
    Wrap(c0 - k, W);
    ModShift(n, 0 - k, W2);
    Wrap(c0 + W * c1 - k, W2);
  }

  // ----- hashBlocks

  /** The sixteen words of the block at i. */
  method Load(blocks: seq<Octet>, i: nat) returns (m: seq<Long>)
    requires i + BLOCK <= |blocks|
    ensures m == LongsOf(blocks[i..i + BLOCK])
  {
    hide LongAt;
    m := [];
    for j := 0 to 16
      invariant |m| == j && forall l :: 0 <= l < j ==> m[l] == LongAt(blocks[i..i + BLOCK], l)
    {
      m := m + [LongAt(blocks[i..i + BLOCK], j)];
    }
  }

  /** hashBlocks, over whole blocks that follow n bytes. */
  method HashBlocks(h: Chain, c0: Word, c1: Word, last: bool, blocks: seq<Octet>, ghost n: int)
    returns (r: Chain, d0: Word, d1: Word)
    requires |blocks| % BLOCK == 0 && Counts(c0, c1, n)
    ensures r == Blocks(h, n, blocks, last) && Counts(d0, d1, n + |blocks|)
  {
    hide Blocks, Counts, Compress, F, LongsOf, AsLong, Flag;
    var a := new Long[8](i requires 0 <= i < 8 => h[i]);
    d0, d1 := c0, c1;
    var i := 0;
    assert Blocks(h, n, blocks[..0], last) == h by { BlocksNothing(h, n, last); }
    assert a[..] == h;
    while i < |blocks|
      invariant 0 <= i <= |blocks| && i % BLOCK == 0
      invariant a[..] == Blocks(h, n, blocks[..i], last) && Counts(d0, d1, n + i)
    {
      NextFits(i, |blocks|);
      d0, d1 := CountUp(d0, d1, n + i);
      var m := Load(blocks, i);
      ghost var b := blocks[i..i + BLOCK];
      CompressCounted(a[..], b, d0, d1, n + i + BLOCK, last);
      BlocksNext(h, n, blocks[..i], b, last);
      assert blocks[..i] + b == blocks[..i + BLOCK];
      FGeneric(a, m, AsLong(d0), AsLong(d1), Flag(last), 12);
      i := i + BLOCK;
    }
    assert blocks[..|blocks|] == blocks;
    r := a[..];
  }

  lemma NextFits(i: nat, n: nat)
    requires i % BLOCK == 0 && n % BLOCK == 0 && i < n
    ensures i + BLOCK <= n && (i + BLOCK) % BLOCK == 0
  {
  }

  lemma CompressCounted(h: Chain, b: seq<Octet>, c0: Word, c1: Word, n: int, last: bool)
    requires Counts(c0, c1, n) && |b| == BLOCK
    ensures F(h, LongsOf(b), AsLong(c0), AsLong(c1), Flag(last), 12) == Compress(h, b, n, last)
  {
    hide F, AsLong, LongsOf;
    CounterWords(c0, c1, n);
  }

  /** The last compression, common to checkSum and finalize. */
  method LastBlock(h: Chain, c0: Word, c1: Word, rest: seq<Octet>, ghost h0: Chain, ghost m: seq<Octet>)
    returns (r: Chain)
    requires |m| % BLOCK == 0 && |rest| <= BLOCK && (rest == [] ==> m == [])
    requires h == ChainOf(h0, m) && Counts(c0, c1, |m|)
    ensures r == Hash(h0, m + rest)
  {
    hide ChainOf, Counts, Compress, Blocks;
    var block := ZeroPad(rest);
    var d0, d1 := CountDown(c0, c1, BLOCK - |rest|, |m|);
    ghost var n := |m| - (BLOCK - |rest|);
    BeforeUnique(|m|, |m + rest|);
    assert (m + rest)[..|m|] == m && (m + rest)[|m|..] == rest;
    r, d0, d1 := HashBlocks(h, d0, d1, true, block, n);
    BlocksNothing(h, n, true);
    BlocksNext(h, n, [], block, true);
    assert [] + block == block;
  }

  /** How much of the data goes in before the last block: all whole blocks but that. */
  function Whole(length: nat): (n: nat)
  {
    if length > BLOCK then
      var n := length - length % BLOCK;
      if length == n then n - BLOCK else n
    else 0
  }

  lemma Multiples(j: nat, k: nat)
    requires j % BLOCK == 0 && k % BLOCK == 0
    ensures (j + k) % BLOCK == 0
  {
  }

  lemma WholeLeavesLast(length: nat)
    ensures Whole(length) <= length && Whole(length) % BLOCK == 0 && length - Whole(length) <= BLOCK
    ensures length > 0 ==> length > Whole(length)
  {
  }

  /** The words of a sum, the rest of which stays zero. */
  function Cut(b: Sum64, words: nat): (r: Sum64)
    requires words <= 8
  {
    b[..8 * words] + seq(64 - 8 * words, _ => 0)
  }

  /** The first words, as bytes. */
  method PutWords(h: Chain, n: nat) returns (sum: Sum64)
    requires n <= 8
    ensures sum == Cut(BytesOf(h), n)
  {
    hide ByteOf;
    sum := seq(64, _ => 0);
    for i := 0 to n
      invariant sum == Cut(BytesOf(h), i)
    {
      WordCut(h, i);
      sum := sum[..8 * i] + LongBytes(h[i]) + sum[8 * i + 8..];
    }
  }

  /** binary.LittleEndian.PutUint64 */
  function LongBytes(a: Long): (b: seq<Octet>)
    ensures |b| == 8
  {
    [ByteOf(a, 0), ByteOf(a, 1), ByteOf(a, 2), ByteOf(a, 3), ByteOf(a, 4), ByteOf(a, 5), ByteOf(a, 6), ByteOf(a, 7)]
  }

  lemma WordCut(h: Chain, i: nat)
    requires i < 8
    ensures BytesOf(h)[8 * i..8 * i + 8] == LongBytes(h[i])
  {
    hide ByteOf;
    var b, c := BytesOf(h)[8 * i..8 * i + 8], LongBytes(h[i]);
    forall k | 0 <= k < 8
      ensures b[k] == c[k]
    {
      assert (8 * i + k) / 8 == i && (8 * i + k) % 8 == k;
    }
  }

  /** checkSum: the words that hold the first hashSize bytes. */
  method CheckSum(hashSize: nat, data: seq<Octet>) returns (sum: Sum64)
    requires hashSize <= SIZE
    ensures sum == Cut(Digested(Start(hashSize, 0), data), (hashSize + 7) / 8)
    ensures sum[..hashSize] == Digested(Start(hashSize, 0), data)[..hashSize]
  {
    hide ChainOf, Blocks, Compress, Hash, Whole, BytesOf, Start;
    WholeLeavesLast(|data|);
    var n := Whole(|data|);
    var h := IV[0 := Xor(IV[0], ((hashSize as bv64) | (1 << 16) | (1 << 24)))];
    StartUnkeyed(hashSize);
    ghost var h0 := h;
    var c0, c1: Word;
    h, c0, c1 := HashBlocks(h, 0, 0, false, data[..n], 0);
    assert h == ChainOf(h0, data[..n]) by { ChainIs(h0, data[..n]); }
    assert data[..n] + data[n..] == data;
    h := LastBlock(h, c0, c1, data[n..], h0, data[..n]);
    sum := PutWords(h, (hashSize + 7) / 8);
  }

  lemma StartUnkeyed(size: nat)
    requires size <= SIZE
    ensures Start(size, 0) == IV[0 := Xor(IV[0], ((size as bv64) | (1 << 16) | (1 << 24)))]
  {
  }

  lemma ChainIs(h: Chain, m: seq<Octet>)
    ensures ChainOf(h, m) == Blocks(h, 0, m, false)
  {
  }

  lemma BlocksNothing(h: Chain, n: int, last: bool)
    ensures Blocks(h, n, [], last) == h
  {
  }

  /** More blocks go on from the chain value. */
  lemma Continues(h: Chain, m: seq<Octet>, b: seq<Octet>)
    requires |m| % BLOCK == 0 && |b| % BLOCK == 0
    ensures ChainOf(h, m + b) == Blocks(ChainOf(h, m), |m|, b, false)
  {
    hide Blocks;
    BlocksSplit(h, 0, m, b, false);
  }

  // ----- The buffered form

  /** The first block of a keyed message. */
  function KeyBlock(key: seq<Octet>): (b: seq<Octet>)
    requires |key| <= SIZE
    ensures |b| % BLOCK == 0
  {
    if key == [] then [] else ZeroPad(key)
  }

  function ConfiguredWord(cfg: Sum64, i: nat): (a: Long)
    requires i < 8
  {
    Xor(IV[i], LongAt(cfg, i))
  }

  /** The chain value that a parameter block gives. */
  function Configured(cfg: Sum64): (h: Chain)
  {
    seq(8, i requires 0 <= i < 8 => ConfiguredWord(cfg, i))
  }

  method Configure(cfg: Sum64) returns (h: Chain)
    ensures h == Configured(cfg)
  {
    hide ConfiguredWord;
    h := IV;
    for i := 0 to 8
      invariant forall j :: 0 <= j < i ==> h[j] == ConfiguredWord(cfg, j)
    {
      h := h[i := ConfiguredWord(cfg, i)];
    }
  }

  /** digest; the size and the key stay as they were made. h0 is the chain value that the
      bytes of msg went into. */
  class Digest {
    const size: nat
    const key: seq<Octet>
    const keyLen: nat
    var h: Chain
    var c0: Word
    var c1: Word
    var block: seq<Octet>
    var offset: nat
    ghost var h0: Chain
    ghost var msg: seq<Octet>

    ghost predicate Sized()
    {
      size <= SIZE && keyLen <= SIZE && |key| == BLOCK
    }

    ghost predicate Made(size: nat, key: seq<Octet>)
    {
      Sized() && |key| <= SIZE && this.size == size && this.key == ZeroPad(key) && keyLen == |key|
    }

    /** The buffer is emptied only when more data follows it. */
    ghost predicate Valid()
      reads this
    {
      && |block| == BLOCK && offset <= BLOCK && offset <= |msg| && (offset == 0 ==> msg == [])
      && msg[|msg| - offset..] == block[..offset] && (|msg| - offset) % BLOCK == 0
      && h == ChainOf(h0, msg[..|msg| - offset]) && Counts(c0, c1, |msg| - offset)
    }

    constructor (size: nat, key: seq<Octet>)
      requires size <= SIZE && |key| <= SIZE
      ensures Made(size, key) && Valid() && h0 == Start(size, |key|) && msg == KeyBlock(key)
    {
      this.size, this.key, keyLen, block := size, ZeroPad(key), |key|, seq(BLOCK, _ => 0);
      new;
      Reset();
    }

    /** As newly made. */
    method Reset()
      requires Sized() && |block| == BLOCK
      modifies this
      ensures Valid() && |block| == BLOCK && h0 == Start(size, keyLen) && |msg| == offset && msg == if keyLen == 0 then [] else key
    {
      hide Start, Blocks, Xor, Counts;
      h := Start(size, keyLen);
      offset, c0, c1 := 0, 0, 0;
      if keyLen > 0 {
        block, offset := key, BLOCK;
      }
      h0, msg := h, if keyLen == 0 then [] else key;
      NoneCounted();
      BlocksNothing(h, 0, false);
    }

    /** Another chain value before anything but the key was absorbed. */
    method SetStart(start: Chain)
      requires Valid() && |msg| == offset
      modifies this`h, this`h0
      ensures Valid() && |block| == BLOCK && h0 == start
    {
      hide Counts, Blocks;
      h, h0 := start, start;
      BlocksNothing(h, 0, false);
    }

    /** initConfig: a chain value of its own, and no key. */
    method InitConfig(cfg: Sum64)
      requires |block| == BLOCK
      modifies this
      ensures Valid() && h0 == Configured(cfg) && msg == []
    {
      hide Configured, Valid;
      offset, c0, c1 := 0, 0, 0;
      h := Configure(cfg);
      h0, msg := h, [];
      EmptyIsValid();
    }

    lemma EmptyIsValid()
      requires |block| == BLOCK && offset == c0 == c1 == 0 && h == h0 && msg == []
      ensures Valid()
    {
      hide Blocks, Counts;
      NoneCounted();
      BlocksNothing(h, 0, false);
    }

    method Write(p: seq<Octet>)
      requires Valid()
      modifies this
      ensures Valid() && |block| == BLOCK && h0 == old(h0) && msg == old(msg) + p
    {
      hide ChainOf, Blocks, Counts;
      var q := p;
      if offset > 0 {
        var remaining := BLOCK - offset;
        if |p| <= remaining {
          Buffer(p);
          return;
        }
        Spill(p[..remaining]);
        q := p[remaining..];
        assert p[..remaining] + q == p;
      }
      WriteBlocks(q);
    }

    /** Data that fits behind what is buffered. */
    method Buffer(p: seq<Octet>)
      requires Valid() && |p| <= BLOCK - offset && (offset == 0 ==> p != [])
      modifies this
      ensures Valid() && h0 == old(h0) && msg == old(msg) + p
    {
      hide ChainOf, Blocks, Counts;
      ghost var m := msg[..|msg| - offset];
      assert msg == m + block[..offset];
      block := block[..offset] + p + block[offset + |p|..];
      offset := offset + |p|;
      msg := msg + p;
      assert msg == m + block[..offset];
      assert msg[..|m|] == m && msg[|m|..] == block[..offset];
    }

    /** Fills the buffer and compresses it; the data that follows is yet to come. */
    method Spill(p: seq<Octet>)
      requires Valid() && |p| == BLOCK - offset
      modifies this
      ensures Started(old(msg) + p) && h0 == old(h0)
    {
      hide ChainOf, Blocks, Counts;
      ghost var m := msg[..|msg| - offset];
      assert msg == m + block[..offset];
      block := block[..offset] + p;
      assert ChainOf(h0, m + block) == Blocks(h, |m|, block, false) by { Continues(h0, m, block); }
      h, c0, c1 := HashBlocks(h, c0, c1, false, block, |m|);
      offset := 0;
      msg := msg + p;
      assert m + block == msg;
    }

    /** Everything so far is compressed. */
    ghost predicate Started(m: seq<Octet>)
      reads this
    {
      && |block| == BLOCK && offset == 0 && msg == m && |m| % BLOCK == 0
      && h == ChainOf(h0, m) && Counts(c0, c1, |m|)
    }

    /** The rest of Write, from an empty buffer: whole blocks, then the buffer. */
    method WriteBlocks(q: seq<Octet>)
      requires Started(msg) && (q == [] ==> msg == [])
      modifies this
      ensures Valid() && h0 == old(h0) && msg == old(msg) + q
    {
      hide ChainOf, Blocks, Counts, Whole;
      var n := Whole(|q|);
      WholeLeavesLast(|q|);
      Multiples(|msg|, n);
      Continues(h0, msg, q[..n]);
      h, c0, c1 := HashBlocks(h, c0, c1, false, q[..n], |msg|);
      msg := msg + q[..n];
      assert old(msg) + q[..n] + q[n..] == old(msg) + q;
      Keep(q[n..]);
    }

    /** What is left goes into the empty buffer. */
    method Keep(rest: seq<Octet>)
      requires Started(msg) && |rest| <= BLOCK && (rest == [] ==> msg == [])
      modifies this`block, this`offset, this`msg
      ensures Valid() && msg == old(msg) + rest
    {
      hide ChainOf, Blocks, Counts;
      ghost var m := msg;
      block := rest + block[|rest|..];
      offset := |rest|;
      msg := m + rest;
      assert msg[..|m|] == m && msg[|m|..] == rest == block[..offset];
    }

    /** finalize works on copies, so that the caller can keep writing. */
    method Finalize() returns (hash: Sum64)
      requires Valid()
      ensures hash == Digested(h0, msg)
    {
      hide ChainOf, Counts, Hash, BytesOf;
      ghost var m := msg[..|msg| - offset];
      assert msg == m + block[..offset];
      var r := LastBlock(h, c0, c1, block[..offset], h0, m);
      hash := PutWords(r, 8);
      assert Cut(BytesOf(r), 8) == BytesOf(r);
    }

    /** A digest of one message under a parameter block. */
    method Rehash(cfg: Sum64, m: seq<Octet>) returns (hash: Sum64)
      requires |block| == BLOCK
      modifies this
      ensures |block| == BLOCK && hash == Digested(Configured(cfg), m)
    {
      hide Valid, Digested, Configured;
      InitConfig(cfg);
      Write(m);
      assert [] + m == m;
      hash := Finalize();
    }

    method Sum(prefix: seq<Octet>) returns (r: seq<Octet>)
      requires Valid() && size <= SIZE
      ensures r == prefix + Digested(h0, msg)[..size]
    {
      hide Digested;
      var hash := Finalize();
      r := prefix + hash[..size];
    }
  }

  /** newDigest */
  method NewDigest(hashSize: int, key: seq<Octet>) returns (r: Result<Digest>)
    ensures r.Err? <==> hashSize < 1 || hashSize > SIZE || |key| > SIZE
    ensures r.Err? ==> r.error == if hashSize < 1 || hashSize > SIZE then HashSize else KeySize
    ensures r.Ok? ==> var d := r.value;
      fresh(d) && d.Made(hashSize, key) && d.Valid() && d.h0 == Start(hashSize, |key|) && d.msg == KeyBlock(key)
  {
    if hashSize < 1 || hashSize > SIZE {
      return Err(HashSize);
    }
    if |key| > SIZE {
      return Err(KeySize);
    }
    var d := new Digest(hashSize, key);
    return Ok(d);
  }

  /** However the message is cut into writes, a digest ends in the hash of the whole, and so
      does every sum taken on the way; unkeyed, that is the one-shot checksum. */
  method DigestInPieces(size: nat, key: seq<Octet>, ps: seq<seq<Octet>>)
    returns (digest: seq<Octet>, once: Sum64, sums: seq<seq<Octet>>)
    requires size <= SIZE && |key| <= SIZE
    ensures digest == Digested(Start(size, |key|), KeyBlock(key) + Flat(ps))[..size]
    ensures key == [] ==> digest == once[..size]
    ensures |sums| == |ps|
    ensures forall i :: 0 <= i < |ps| ==> sums[i] == Digested(Start(size, |key|), KeyBlock(key) + Flat(ps[..i]))[..size]
  {
    hide Digested, ChainOf, Counts, Start, KeyBlock;
    var d := new Digest(size, key);
    ghost var h0, k := d.h0, KeyBlock(key);
    var data := [];
    sums := [];
    assert k + [] == k;
    for i := 0 to |ps|
      invariant fresh(d) && d.Valid() && d.size == size && d.h0 == h0 && data == Flat(ps[..i]) && d.msg == k + data && |sums| == i
      invariant forall j :: 0 <= j < i ==> sums[j] == Digested(h0, k + Flat(ps[..j]))[..size]
    {
      assert ps[..i + 1][..i] == ps[..i];
      var sum := d.Sum([]);
      sums := sums + [sum];
      d.Write(ps[i]);
      assert k + data + ps[i] == k + (data + ps[i]);
      data := data + ps[i];
    }
    assert ps[..|ps|] == ps;
    digest := d.Sum([]);
    once := CheckSum(size, data);
    assert key == [] ==> k + data == data by { Unkeyed(key, data); }
  }

  lemma Unkeyed(key: seq<Octet>, m: seq<Octet>)
    requires |key| <= SIZE
    ensures key == [] ==> KeyBlock(key) + m == m
  {
  }
}
