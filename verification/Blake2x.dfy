/** BLAKE2Xb: extendable output, made of 64-byte nodes hashed from the root hash. */
module Blake2x {
  import opened Words
  import opened Longs
  import opened Blake2F
  import opened Blake2b
  import Pieces

  const W32: nat := 0x1_0000_0000
  /** The length that stands for an unknown one, and the bytes it allows. */
  const UNKNOWN: nat := 0xFFFF_FFFF
  const MAX_OUTPUT: nat := 0x40_0000_0000

  function OutputLength(length: nat): (n: nat)
  {
    if length == UNKNOWN then MAX_OUTPUT else length
  }

  /** A key of at most 64 bytes, and the length of the output, below 2^32. */
  datatype Params = Params(key: seq<Octet>, length: nat)

  ghost predicate Fits(x: Params)
  {
    |x.key| <= SIZE && x.length < W32
  }

  /** The four little-endian bytes of a number. */
  function Bytes32(n: nat): (b: seq<Octet>)
    requires n < W32
    ensures |b| == 4
  {
    [NumByte(n, 0), NumByte(n, 1), NumByte(n, 2), NumByte(n, 3)]
  }

  function Zeros(n: nat): (b: seq<Octet>)
    ensures |b| == n
  {
    seq(n, _ => 0)
  }

  /** The parameter block of a node: its size, no key, no fanout and no depth, the leaf
      length, the index of the node, the length of the output and the inner hash size. */
  function Config(size: nat, index: nat, length: nat): (cfg: Sum64)
    requires size <= SIZE && index < W32 && length < W32
  {
    hide Bytes32, Zeros;
    [size as bv8] + Zeros(3) + Bytes32(SIZE) + Bytes32(index) + Bytes32(length) + [0, 64] + Zeros(46)
  }

  /** The root has the length of the output in the upper half of its second word. */
  function RootStart(x: Params): (h: Chain)
    requires Fits(x)
  {
    var h := Start(SIZE, |x.key|);
    h[1 := Xor(h[1], AsLong(x.length) << 32)]
  }

  // ----- The output as one string

  function NodeSize(total: nat, i: nat): (n: nat)
    ensures n <= SIZE
  {
    if total < 64 * i then 0 else if total - 64 * i < SIZE then total - 64 * i else SIZE
  }

  function Node(x: Params, root: seq<Octet>, i: nat): (b: Sum64)
    requires x.length < W32
  {
    Digested(Configured(Config(NodeSize(OutputLength(x.length), i), i % W32, x.length)), root)
  }

  function RootOf(x: Params, m: seq<Octet>): (root: Sum64)
    requires Fits(x)
  {
    Digested(RootStart(x), KeyBlock(x.key) + m)
  }

  /** Output bytes from position i on. */
  function Stream(x: Params, root: seq<Octet>, i: nat, n: nat): (out: seq<Octet>)
    requires x.length < W32
    ensures |out| == n
  {
    hide Node;
    seq(n, k requires 0 <= k < n => Node(x, root, (i + k) / 64)[(i + k) % 64])
  }

  lemma StreamJoins(x: Params, root: seq<Octet>, i: nat, m: nat, n: nat)
    requires x.length < W32
    ensures Stream(x, root, i, m) + Stream(x, root, i + m, n) == Stream(x, root, i, m + n)
  {
    hide Node;
  }

  lemma NodeIs(x: Params, root: seq<Octet>, i: nat)
    requires x.length < W32 && i < W32
    ensures Node(x, root, i) == Digested(Configured(Config(NodeSize(OutputLength(x.length), i), i, x.length)), root)
  {
    hide Digested, Configured, Config;
  }

  /** A piece of one node is a piece of the output. */
  lemma NodeIsStream(x: Params, root: seq<Octet>, i: nat, o: nat, n: nat)
    requires x.length < W32 && o + n <= 64
    ensures Node(x, root, i)[o..o + n] == Stream(x, root, 64 * i + o, n)
  {
    hide Node;
    var piece, out := Node(x, root, i)[o..o + n], Stream(x, root, 64 * i + o, n);
    forall k | 0 <= k < n
      ensures piece[k] == out[k]
    {
      assert (64 * i + o + k) / 64 == i && (64 * i + o + k) % 64 == o + k;
    }
  }

  // ----- The reader

  /** The node and the place in it of output byte i, and the nodes begun before it. */
  function NodeOf(i: nat): (n: nat) { i / 64 }

  function PlaceOf(i: nat): (o: nat)
    ensures o < 64
  {
    i % 64
  }

  function NodesMade(i: nat): (n: nat) { (i + 63) / 64 % W32 }

  lemma Div64(q: nat, o: nat)
    requires o < 64
    ensures (64 * q + o) / 64 == q && (64 * q + o) % 64 == o
  {
  }

  lemma MadeIs(pos: nat)
    ensures NodesMade(pos) == (if PlaceOf(pos) == 0 then NodeOf(pos) else NodeOf(pos) + 1) % W32
  {
    var q, o := pos / 64, pos % 64;
    assert pos + 63 == if o == 0 then 64 * q + 63 else 64 * (q + 1) + (o - 1);
    if o == 0 {
      Div64(q, 63);
    } else {
      Div64(q + 1, o - 1);
    }
  }

  /** Moving on inside a node, or to the start of the next. */
  lemma PosMoves(pos: nat, n: nat)
    requires PlaceOf(pos) + n <= 64
    ensures PlaceOf(pos) + n < 64 ==> NodeOf(pos + n) == NodeOf(pos) && PlaceOf(pos + n) == PlaceOf(pos) + n
    ensures PlaceOf(pos) + n == 64 ==> PlaceOf(pos + n) == 0
    ensures PlaceOf(pos) > 0 ==> NodesMade(pos + n) == NodesMade(pos)
    ensures PlaceOf(pos) == 0 && n > 0 ==> NodesMade(pos + n) == (NodesMade(pos) + 1) % W32
  {
    var q, o := NodeOf(pos), PlaceOf(pos);
    Placed(pos);
    MadeIs(pos);
    MadeIs(pos + n);
    if o + n < 64 {
      Div64(q, o + n);
    } else {
      Div64(q + 1, 0);
    }
    assert NodeOf(pos + n) == if o + n < 64 then q else q + 1;
    assert PlaceOf(pos + n) == if o + n < 64 then o + n else 0;
    hide NodeOf, PlaceOf, NodesMade;
    NextModulo(q);
  }

  lemma NextModulo(q: nat)
    ensures (q + 1) % W32 == (q % W32 + 1) % W32
  {
  }

  lemma Placed(pos: nat)
    ensures pos == 64 * NodeOf(pos) + PlaceOf(pos)
  {
  }

  /** At the start of a node that is still to be read. */
  lemma NodeStarts(pos: nat, total: nat)
    requires PlaceOf(pos) == 0 && pos < total <= MAX_OUTPUT
    ensures pos == 64 * NodeOf(pos) && NodesMade(pos) == NodeOf(pos)
    ensures NodeSize(total, NodeOf(pos)) == if total - pos < SIZE then total - pos else SIZE
  {
  }

  // ----- The parameter block in place

  /** binary.LittleEndian.PutUint32 */
  function Put(cfg: Sum64, at: nat, n: nat): (r: Sum64)
    requires at <= 60 && n < W32
  {
    cfg[..at] + Bytes32(n) + cfg[at + 4..]
  }

  function PutSize(cfg: Sum64, size: nat): (r: Sum64)
    requires size <= SIZE
  {
    cfg[0 := size as bv8]
  }

  /** The bytes that are never set. */
  ghost predicate Blank(cfg: Sum64)
  {
    cfg[1..4] == Zeros(3) && cfg[16] == 0 && cfg[18..] == Zeros(46)
  }

  /** All but the node index is as it should be. */
  ghost predicate Shaped(cfg: Sum64, size: nat, length: nat)
    requires size <= SIZE && length < W32
  {
    && Blank(cfg) && cfg[0] == size as bv8 && cfg[4..8] == Bytes32(SIZE)
    && cfg[12..16] == Bytes32(length) && cfg[17] == 64
  }

  lemma SamePieces(c: Sum64, d: Sum64)
    requires c[..1] == d[..1] && c[1..4] == d[1..4] && c[4..8] == d[4..8] && c[8..12] == d[8..12]
    requires c[12..16] == d[12..16] && c[16..18] == d[16..18] && c[18..] == d[18..]
    ensures c == d
  {
    assert c[..4] == c[..1] + c[1..4] && d[..4] == d[..1] + d[1..4];
    assert c[4..12] == c[4..8] + c[8..12] && d[4..12] == d[4..8] + d[8..12];
    assert c[12..18] == c[12..16] + c[16..18] && d[12..18] == d[12..16] + d[16..18];
    assert c == c[..4] + c[4..12] + c[12..18] + c[18..] && d == d[..4] + d[4..12] + d[12..18] + d[18..];
  }

  lemma ConfigPieces(size: nat, index: nat, length: nat)
    requires size <= SIZE && index < W32 && length < W32
    ensures var d := Config(size, index, length);
            && d[..1] == [size as bv8] && d[1..4] == Zeros(3) && d[4..8] == Bytes32(SIZE) && d[8..12] == Bytes32(index)
            && d[12..16] == Bytes32(length) && d[16..18] == [0, 64] && d[18..] == Zeros(46)
  {
    hide Bytes32, Zeros;
  }

  lemma PutPieces(c: Sum64, n: nat)
    requires n < W32
    ensures var d := Put(c, 8, n);
            && d[..1] == c[..1] && d[1..4] == c[1..4] && d[4..8] == c[4..8] && d[8..12] == Bytes32(n)
            && d[12..16] == c[12..16] && d[16..18] == c[16..18] && d[18..] == c[18..]
  {
    hide Bytes32;
  }

  lemma ConfigIs(cfg: Sum64, size: nat, index: nat, length: nat)
    requires size <= SIZE && index < W32 && length < W32 && Shaped(cfg, size, length)
    ensures Put(cfg, 8, index) == Config(size, index, length) && Shaped(Put(cfg, 8, index), size, length)
  {
    hide Bytes32, Zeros, Put, Config;
    ConfigPieces(size, index, length);
    PutPieces(cfg, index);
    var d := Put(cfg, 8, index);
    assert cfg[..1] == [cfg[0]] && cfg[16..18] == [cfg[16], cfg[17]];
    SamePieces(d, Config(size, index, length));
    assert d[..1] == [d[0]] && d[16..18] == [d[16], d[17]];
  }

  lemma ShapedBy(cfg: Sum64, length: nat)
    requires Blank(cfg) && length < W32
    ensures Shaped(Put(Put(cfg[0 := 64], 4, SIZE), 12, length)[17 := 64], SIZE, length)
  {
    hide Bytes32, Zeros;
    assert SIZE as bv8 == 64;
    var c1 := cfg[0 := 64];
    var c2 := Put(c1, 4, SIZE);
    var c3 := Put(c2, 12, length);
    var c4 := c3[17 := 64];
    assert c4[4..8] == c2[4..8] == Bytes32(SIZE) && c4[12..16] == c3[12..16] == Bytes32(length);
    assert c4[1..4] == cfg[1..4] && c4[18..] == cfg[18..] && c4[0] == 64 && c4[16] == cfg[16];
  }

  lemma ShapedSize(cfg: Sum64, size: nat, other: nat, length: nat)
    requires size <= SIZE && other <= SIZE && length < W32 && Shaped(cfg, size, length)
    ensures Shaped(PutSize(cfg, other), other, length)
  {
    hide Bytes32;
  }

  lemma KeyFirst(d: Digest, key: seq<Octet>)
    requires d.Made(SIZE, key) && d.msg == if d.keyLen == 0 then [] else d.key
    ensures d.msg == KeyBlock(key) + []
  {
  }

  class Xof {
    const x: Params
    const d: Digest
    var remaining: nat
    var cfg: Sum64
    var root: seq<Octet>
    var block: seq<Octet>
    var offset: nat
    var nodeOffset: nat
    var readMode: bool
    ghost var msg: seq<Octet>
    /** The node size in the parameter block. */
    ghost var cfg0: nat

    ghost function Total(): (n: nat)
    {
      OutputLength(x.length)
    }

    /** How much was read. */
    ghost function Pos(): (n: nat)
      requires remaining <= Total()
      reads this
    {
      Total() - remaining
    }

    ghost predicate Valid()
      reads this, d
    {
      && Fits(x) && d.Made(SIZE, x.key) && |d.block| == BLOCK && cfg0 <= SIZE && Shaped(cfg, cfg0, x.length)
      && remaining <= Total()
      && if readMode then Reading() else Writing()
    }

    ghost predicate Writing()
      reads this, d
      requires Fits(x)
    {
      hide RootStart, KeyBlock, Digest.Valid, OutputLength;
      && d.Valid() && d.h0 == RootStart(x) && d.msg == KeyBlock(x.key) + msg
      && remaining == Total() && offset == 0 && nodeOffset == 0 && cfg0 == SIZE
    }

    /** The unread bytes of the node being read. */
    ghost function Left(): (n: int)
      reads `offset
    {
      if offset == 0 then 0 else 64 - offset
    }

    /** The node being read is the one at the position, and the next one is the one after;
        the size in the configuration is only changed for the last node. */
    ghost predicate Reading()
      requires Fits(x) && remaining <= Total()
      reads this
    {
      var pos := Pos();
      && root == RootOf(x, msg) && offset == PlaceOf(pos) && nodeOffset == NodesMade(pos)
      && (offset > 0 ==> block == Node(x, root, NodeOf(pos)))
      && (remaining > Left() ==> cfg0 == SIZE)
    }

    constructor (x: Params)
      requires Fits(x)
      ensures Valid() && !readMode && msg == [] && this.x == x && fresh(d)
    {
      this.x := x;
      d := new Digest(SIZE, x.key);
      cfg, remaining, root, block, offset, nodeOffset, readMode := Zeros(64), 0, Zeros(64), Zeros(64), 0, 0, false;
      new;
      Reset();
    }

    method Reset()
      requires Fits(x) && d.Made(SIZE, x.key) && |d.block| == BLOCK && Blank(cfg)
      modifies this, d
      ensures Valid() && !readMode && msg == []
    {
      hide Digest.Valid, Shaped, Blank, Put, RootStart, Start, KeyBlock;
      ShapedBy(cfg, x.length);
      cfg := cfg[0 := 64];
      cfg := Put(cfg, 4, SIZE);
      cfg := Put(cfg, 12, x.length);
      cfg := cfg[17 := 64];
      cfg0 := SIZE;
      d.Reset();
      assert d.msg == KeyBlock(x.key) + [] by { KeyFirst(d, x.key); }
      d.SetStart(RootStart(x));
      remaining := OutputLength(x.length);
      offset, nodeOffset, readMode, msg := 0, 0, false, [];
    }

    /** Write; false is its panic. */
    method Write(p: seq<Octet>) returns (ok: bool)
      requires Valid()
      modifies this`msg, d
      ensures Valid() && ok == !readMode && msg == if ok then old(msg) + p else old(msg)
    {
      hide Reading, Shaped, Digest.Valid, RootStart, KeyBlock, OutputLength;
      if readMode {
        return false;
      }
      assert KeyBlock(x.key) + msg + p == KeyBlock(x.key) + (msg + p);
      d.Write(p);
      msg := msg + p;
      return true;
    }

    /** The next node, of the configured size. */
    method NextNode()
      requires Fits(x) && d.Made(SIZE, x.key) && |d.block| == BLOCK && readMode && nodeOffset < W32
      requires cfg0 <= SIZE && Shaped(cfg, cfg0, x.length)
      modifies d, this`block, this`nodeOffset, this`cfg
      ensures |d.block| == BLOCK && nodeOffset == (old(nodeOffset) + 1) % W32 && Shaped(cfg, cfg0, x.length)
      ensures block == Digested(Configured(Config(cfg0, old(nodeOffset), x.length)), root)
    {
      hide Digested, Configured, Shaped, Put, Config;
      ConfigIs(cfg, cfg0, nodeOffset, x.length);
      cfg := Put(cfg, 8, nodeOffset);
      nodeOffset := (nodeOffset + 1) % W32;
      block := d.Rehash(cfg, root);
    }

    /** The first read turns the message into the root. */
    method Begin()
      requires Valid() && !readMode
      modifies this`root, this`readMode
      ensures Valid() && readMode
    {
      hide Digested, Shaped, RootStart, KeyBlock, Digest.Valid;
      root := d.Finalize();
      readMode := true;
    }

    /** The bytes read next are the next ones of the output. */
    twostate predicate Took(b: seq<Octet>)
      requires Fits(x) && old(remaining) <= Total()
      reads this
    {
      && remaining == old(remaining) - |b| && msg == old(msg) && readMode
      && b == Stream(x, RootOf(x, msg), old(Pos()), |b|)
    }

    /** From the node in the block. */
    method TakeRest(m: nat) returns (b: seq<Octet>)
      requires Valid() && readMode && offset > 0 && m <= remaining
      modifies this`offset, this`remaining
      ensures Valid() && Took(b) && |b| <= m && (|b| < m ==> offset == 0)
    {
      hide Node, Shaped, Digest.Valid, Stream, RootOf, NodeOf, PlaceOf, NodesMade;
      assert |block| == 64;
      var blockRemaining := SIZE - offset;
      var n := if m < blockRemaining then m else blockRemaining;
      b := block[offset..offset + n];
      assert Pos() == 64 * NodeOf(Pos()) + offset by { Placed(Pos()); }
      NodeIsStream(x, root, NodeOf(Pos()), offset, n);
      PosMoves(Pos(), n);
      offset := if m < blockRemaining then offset + n else 0;
      remaining := remaining - n;
    }

    /** A whole node. */
    method TakeNode() returns (b: seq<Octet>)
      requires Valid() && readMode && offset == 0 && remaining >= 64
      modifies this`block, this`nodeOffset, this`cfg, this`remaining, d
      ensures Valid() && Took(b) && |b| == 64
    {
      hide Shaped, Digested, Configured, Config, PutSize, Node, Digest.Valid, Stream, RootOf, NodeOf, PlaceOf, NodesMade, NodeSize;
      ghost var i := NodeOf(Pos());
      NodeStarts(Pos(), Total());
      NextNode();
      NodeIs(x, root, i);
      b := block;
      NodeIsStream(x, root, i, 0, 64);
      assert block[0..64] == block;
      PosMoves(Pos(), 64);
      remaining := remaining - SIZE;
    }

    /** The first bytes of a node, which may be a short last one. */
    method TakePart(todo: nat) returns (b: seq<Octet>)
      requires Valid() && readMode && offset == 0 && 0 < todo < 64 && todo <= remaining
      modifies this`block, this`nodeOffset, this`remaining, this`offset, this`cfg, this`cfg0, d
      ensures Valid() && Took(b) && |b| == todo
    {
      hide Shaped, Digested, Configured, Config, PutSize, Node, Digest.Valid, Stream, RootOf, NodeOf, PlaceOf, NodesMade, NodeSize;
      ghost var i := NodeOf(Pos());
      NodeStarts(Pos(), Total());
      if remaining < SIZE {
        ShapedSize(cfg, cfg0, remaining, x.length);
        cfg, cfg0 := PutSize(cfg, remaining), remaining;
      }
      NextNode();
      NodeIs(x, root, i);
      b := block[..todo];
      NodeIsStream(x, root, i, 0, todo);
      PosMoves(Pos(), todo);
      offset := todo;
      remaining := remaining - todo;
    }

    /** Whole nodes, then part of one. */
    method TakeNodes(m: nat) returns (out: seq<Octet>)
      requires Valid() && readMode && m <= remaining && (m > 0 ==> offset == 0)
      modifies this`block, this`nodeOffset, this`remaining, this`offset, this`cfg, this`cfg0, d
      ensures Valid() && Took(out) && |out| == m
    {
      hide Reading, Writing, Shaped, Node, Digest.Valid, Stream, RootOf, OutputLength;
      out := [];
      StreamNothing(x, RootOf(x, msg), Pos());
      while m - |out| >= SIZE
        invariant Valid() && Took(out) && |out| <= m && (|out| < m ==> offset == 0)
      {
        var b := TakeNode();
        StreamJoins(x, RootOf(x, msg), old(Pos()), |out|, |b|);
        out := out + b;
      }
      if m - |out| > 0 {
        var b := TakePart(m - |out|);
        StreamJoins(x, RootOf(x, msg), old(Pos()), |out|, |b|);
        out := out + b;
      }
    }

    /** Read of n bytes; eof when nothing is left. */
    method Read(n: nat) returns (out: seq<Octet>, eof: bool)
      requires Valid()
      modifies this, d
      ensures Valid() && Took(out) && eof == (old(remaining) == 0)
      ensures |out| == if n <= old(remaining) then n else old(remaining)
    {
      hide Reading, Writing, Shaped, Node, Digest.Valid, Stream, RootOf;
      if !readMode {
        Begin();
      }
      out := [];
      StreamNothing(x, RootOf(x, msg), Pos());
      if remaining == 0 {
        return [], true;
      }
      eof := false;
      var m := if n > remaining then remaining else n;
      if offset > 0 {
        out := TakeRest(m);
      }
      var b := TakeNodes(m - |out|);
      StreamJoins(x, RootOf(x, msg), old(Pos()), |out|, |b|);
      out := out + b;
    }
  }

  lemma StreamNothing(x: Params, root: seq<Octet>, i: nat)
    requires x.length < W32
    ensures Stream(x, root, i, 0) == []
  {
  }

  /** However the output is cut into reads, it is the beginning of one string, up to the
      length of the output. */
  method ReadInPieces(f: Xof, ns: seq<nat>) returns (out: seq<Octet>)
    requires f.Valid() && !f.readMode
    modifies f, f.d
    ensures Fits(f.x)
    ensures |out| == if Pieces.Total(ns) <= f.Total() then Pieces.Total(ns) else f.Total()
    ensures out == Stream(f.x, RootOf(f.x, old(f.msg)), 0, |out|)
  {
    hide Xof.Reading, Xof.Writing, Shaped, Node, Digest.Valid, Stream, RootOf;
    ghost var root := RootOf(f.x, f.msg);
    assert f.remaining == f.Total() by { Unread(f); }
    out := [];
    StreamNothing(f.x, root, 0);
    for i := 0 to |ns|
      invariant f.Valid() && f.msg == old(f.msg) && f.remaining == f.Total() - |out|
      invariant |out| == if Pieces.Total(ns[..i]) <= f.Total() then Pieces.Total(ns[..i]) else f.Total()
      invariant out == Stream(f.x, root, 0, |out|)
    {
      assert ns[..i + 1][..i] == ns[..i];
      var b, eof := f.Read(ns[i]);
      StreamJoins(f.x, root, 0, |out|, |b|);
      out := out + b;
    }
    assert ns[..|ns|] == ns;
  }

  lemma Unread(f: Xof)
    requires f.Valid() && !f.readMode
    ensures f.remaining == f.Total()
  {
  }

  // ----- NewXOF

  method NewXOF(size: nat, key: seq<Octet>) returns (r: Result<Xof>)
    requires size < W32
    ensures r.Err? <==> |key| > SIZE || size == UNKNOWN
    ensures r.Err? ==> r.error == if |key| > SIZE then KeySize else LengthTooLarge
    ensures r.Ok? ==> var f := r.value;
      && fresh(f) && fresh(f.d) && f.Valid() && !f.readMode && f.msg == [] && f.x.key == key
      && f.Total() == if size == 0 then MAX_OUTPUT else size
  {
    if |key| > SIZE {
      return Err(KeySize);
    }
    if size == UNKNOWN {
      return Err(LengthTooLarge);
    }
    var f := new Xof(Params(key, if size == 0 then UNKNOWN else size));
    return Ok(f);
  }
}
