/** Recursive Length Prefix, Appendix B of the Ethereum Yellow Paper: the generic
    items (byte strings and nested lists), their encoding and the parser of it. */
module RlpFormat {
  import opened Wrappers
  import opened Pieces

  /** What decoding into interface{} yields: []byte or []interface{}. */
  datatype Item = Str(bytes: seq<Byte>) | Lst(items: seq<Item>)

  const LIMIT: int := 0x1_0000_0000_0000_0000

  // ----- Big-endian sizes

  /** Big endian with the least number of bytes; zero has none. */
  function BigEndian(n: nat): (b: seq<Byte>)
  {
    if n == 0 then [] else BigEndian(n / 256) + [n % 256]
  }

  function FromBigEndian(b: seq<Byte>): (n: nat)
  {
    if b == [] then 0 else FromBigEndian(b[..|b| - 1]) * 256 + b[|b| - 1]
  }

  function Pow256(k: nat): (p: nat)
    ensures p >= 1
  {
    if k == 0 then 1 else 256 * Pow256(k - 1)
  }

  lemma {:induction false} BigEndianValue(n: nat)
    ensures FromBigEndian(BigEndian(n)) == n
    ensures n > 0 ==> |BigEndian(n)| > 0 && BigEndian(n)[0] != 0
  {
    if n > 0 {
      BigEndianValue(n / 256);
      var b := BigEndian(n);
      assert b[..|b| - 1] == BigEndian(n / 256);
      if n / 256 == 0 {
        assert b == [n % 256];
      }
    }
  }

  lemma {:induction false} BigEndianUnique(b: seq<Byte>)
    requires b != [] ==> b[0] != 0
    ensures BigEndian(FromBigEndian(b)) == b
    ensures b != [] ==> FromBigEndian(b) > 0
  {
    if b != [] {
      var c := b[..|b| - 1];
      BigEndianUnique(c);
      assert b == c + [b[|b| - 1]];
    }
  }

  lemma {:induction false} FromBigEndianBound(b: seq<Byte>)
    ensures FromBigEndian(b) < Pow256(|b|)
  {
    if b != [] {
      FromBigEndianBound(b[..|b| - 1]);
    }
  }

  lemma {:induction false} BigEndianLength(n: nat, k: nat)
    requires n < Pow256(k)
    ensures |BigEndian(n)| <= k
  {
    if n > 0 {
      assert k > 0;
      BigEndianLength(n / 256, k - 1);
    }
  }

  lemma SizeLength(n: nat)
    requires n < LIMIT
    ensures |BigEndian(n)| <= 8
  {
    assert Pow256(8) == LIMIT;
    BigEndianLength(n, 8);
  }

  lemma SizeBound(b: seq<Byte>)
    requires |b| <= 8
    ensures FromBigEndian(b) < LIMIT
  {
    assert Pow256(8) == LIMIT;
    FromBigEndianBound(b);
    Pow256Monotone(|b|, 8);
  }

  lemma {:induction false} Pow256Monotone(j: nat, k: nat)
    requires j <= k
    ensures Pow256(j) <= Pow256(k)
  {
    if j < k {
      Pow256Monotone(j, k - 1);
    }
  }

  // ----- Encoding

  /** puthead: a string or list header. */
  function Header(smallTag: Byte, largeTag: Byte, size: nat): (h: seq<Byte>)
    requires smallTag <= 200 && largeTag <= 247
    ensures |h| >= 1
  {
    if size < 56 then [smallTag + size]
    else
      var b := BigEndian(size);
      [(largeTag + |b|) % 256] + b
  }

  function StrHeader(size: nat): (h: seq<Byte>)
    ensures |h| >= 1
  {
    Header(0x80, 0xB7, size)
  }

  function ListHeader(size: nat): (h: seq<Byte>)
    ensures |h| >= 1
  {
    Header(0xC0, 0xF7, size)
  }

  /** encodeString: a single byte below 0x80 is its own encoding. */
  function EncodeStr(b: seq<Byte>): (e: seq<Byte>)
    ensures |e| >= 1
  {
    if |b| == 1 && b[0] <= 0x7F then b else StrHeader(|b|) + b
  }

  function Encode(x: Item): (e: seq<Byte>)
    ensures |e| >= 1
    decreases x, 0
  {
    match x
    case Str(b) => EncodeStr(b)
    case Lst(xs) => ListHeader(|EncodeAll(xs)|) + EncodeAll(xs)
  }

  function EncodeAll(xs: seq<Item>): (e: seq<Byte>)
    decreases xs
  {
    if xs == [] then [] else Encode(xs[0]) + EncodeAll(xs[1..])
  }

  /** The length of a long payload, after its tag byte, in as few bytes as can spell it. */
  ghost predicate LongForm(e: seq<Byte>, tag: int, payload: seq<Byte>)
  {
    && |e| > 1 && 1 <= e[0] - tag <= 8 && |e| == 1 + (e[0] - tag) + |payload|
    && e[1] != 0 && FromBigEndian(e[1..1 + (e[0] - tag)]) == |payload|
    && e[1 + (e[0] - tag)..] == payload
  }

  /** Appendix B, formulas 195 and 196 for strings and 197 for lists: which of the five
      forms an item takes. */
  lemma YellowPaper(x: Item)
    requires |Encode(x)| < LIMIT
    ensures x.Str? && |x.bytes| == 1 && x.bytes[0] < 128 ==> Encode(x) == x.bytes
    ensures x.Str? && !(|x.bytes| == 1 && x.bytes[0] < 128) && |x.bytes| < 56 ==> Encode(x) == [128 + |x.bytes|] + x.bytes
    ensures x.Str? && |x.bytes| >= 56 ==> LongForm(Encode(x), 183, x.bytes)
    ensures x.Lst? && |EncodeAll(x.items)| < 56 ==> Encode(x) == [192 + |EncodeAll(x.items)|] + EncodeAll(x.items)
    ensures x.Lst? && |EncodeAll(x.items)| >= 56 ==> LongForm(Encode(x), 247, EncodeAll(x.items))
  {
    hide BigEndian, FromBigEndian;
    if x.Str? && |x.bytes| >= 56 {
      LongHeader(0x80, 0xB7, x.bytes);
    }
    if x.Lst? && |EncodeAll(x.items)| >= 56 {
      LongHeader(0xC0, 0xF7, EncodeAll(x.items));
    }
  }

  lemma LongHeader(smallTag: Byte, largeTag: Byte, payload: seq<Byte>)
    requires smallTag <= 200 && largeTag <= 247 && 56 <= |payload| < LIMIT
    ensures LongForm(Header(smallTag, largeTag, |payload|) + payload, largeTag, payload)
  {
    var n := |payload|;
    var b := BigEndian(n);
    BigEndianValue(n);
    SizeLength(n);
    hide BigEndian, FromBigEndian;
    var e := Header(smallTag, largeTag, n) + payload;
    assert e[1..1 + |b|] == b && e[1 + |b|..] == payload;
  }

  // ----- Parsing

  datatype Kind = ByteKind | StringKind | ListKind

  /** The first value of a slice: its kind, the length of its header and of its content. */
  datatype Head = Head(kind: Kind, tag: nat, size: nat)

  /** A size that must not fit the short form and has no leading zero. */
  function ParseSize(b: seq<Byte>, n: nat): (s: Option<nat>)
    requires n >= 1
  {
    if n > |b| then None
    else
      var s := FromBigEndian(b[..n]);
      if s < 56 || b[0] == 0 then None else Some(s)
  }

  function ParseHead(b: seq<Byte>): (h: Option<Head>)
    ensures h.Some? ==> h.value.tag + h.value.size <= |b| && h.value.tag + h.value.size >= 1
  {
    if b == [] then None
    else
      var t := b[0];
      var h :=
        if t < 0x80 then Some(Head(ByteKind, 0, 1))
        else if t < 0xB8 then
          if t == 0x81 && |b| > 1 && b[1] < 128 then None else Some(Head(StringKind, 1, t - 0x80))
        else if t < 0xC0 then WithSize(StringKind, t - 0xB7, ParseSize(b[1..], t - 0xB7))
        else if t < 0xF8 then Some(Head(ListKind, 1, t - 0xC0))
        else WithSize(ListKind, t - 0xF7, ParseSize(b[1..], t - 0xF7));
      if h.Some? && h.value.tag + h.value.size > |b| then None else h
  }

  function WithSize(k: Kind, n: nat, s: Option<nat>): (h: Option<Head>)
    ensures h.Some? ==> h.value.tag == n + 1
  {
    if s.None? then None else Some(Head(k, n + 1, s.value))
  }

  /** The first value of b and the number of bytes it takes up. */
  function Parse(b: seq<Byte>): (r: Option<(Item, nat)>)
    ensures r.Some? ==> 1 <= r.value.1 <= |b|
    decreases |b|, 0
  {
    var h := ParseHead(b);
    if h.None? then None
    else
      var Head(k, tag, size) := h.value;
      var content := b[tag..tag + size];
      if k.ListKind? then
        assert tag >= 1;
        var xs := ParseAll(content);
        if xs.None? then None else Some((Lst(xs.value), tag + size))
      else Some((Str(content), tag + size))
  }

  function ParseAll(b: seq<Byte>): (r: Option<seq<Item>>)
    decreases |b|, 1
  {
    if b == [] then Some([])
    else
      var x := Parse(b);
      if x.None? then None
      else
        var xs := ParseAll(b[x.value.1..]);
        if xs.None? then None else Some([x.value.0] + xs.value)
  }

  // ----- Parsing undoes encoding

  lemma HeaderParses(b: seq<Byte>, small: Byte, large: Byte, k: Kind, size: nat, rest: seq<Byte>)
    requires (small == 0x80 && large == 0xB7 && k == StringKind) || (small == 0xC0 && large == 0xF7 && k == ListKind)
    requires size < LIMIT && size <= |rest|
    requires b == Header(small, large, size) + rest
    requires !(k == StringKind && size == 1 && rest[0] < 128)
    ensures ParseHead(b) == Some(Head(k, |Header(small, large, size)|, size))
  {
    if size >= 56 {
      LongHeaderParses(b, large, k, size, rest);
    } else {
      assert b[0] == small + size;
      assert |rest| > 0 ==> b[1] == rest[0];
    }
  }

  lemma LongHeaderParses(b: seq<Byte>, large: Byte, k: Kind, size: nat, rest: seq<Byte>)
    requires (large == 0xB7 && k == StringKind) || (large == 0xF7 && k == ListKind)
    requires 56 <= size < LIMIT && size <= |rest|
    requires b == [(large + |BigEndian(size)|) % 256] + BigEndian(size) + rest
    ensures ParseHead(b) == Some(Head(k, 1 + |BigEndian(size)|, size))
  {
    var be := BigEndian(size);
    hide BigEndian;
    SizeLength(size);
    BigEndianValue(size);
    assert b[0] == large + |be|;
    assert b[1..] == be + rest;
    assert b[1..][..|be|] == be;
    assert ParseSize(b[1..], |be|) == Some(size);
  }

  lemma SingleByteParses(b: seq<Byte>)
    requires b != [] && b[0] < 0x80
    ensures ParseHead(b) == Some(Head(ByteKind, 0, 1))
  {
  }

  lemma {:induction false} ParseEncode(x: Item, rest: seq<Byte>)
    requires |Encode(x)| < LIMIT
    ensures Parse(Encode(x) + rest) == Some((x, |Encode(x)|))
    decreases x, 0
  {
    var e := Encode(x);
    var b := e + rest;
    hide Header, ParseHead;
    match x
    case Str(c) =>
      if |c| == 1 && c[0] <= 0x7F {
        SingleByteParses(b);
        assert b[0] == c[0];
        assert b[0..1] == c;
      } else {
        var h := StrHeader(|c|);
        assert b == h + (c + rest);
        HeaderParses(b, 0x80, 0xB7, StringKind, |c|, c + rest);
        assert b[|h|..|h| + |c|] == c;
      }
    case Lst(xs) =>
      var c := EncodeAll(xs);
      var h := ListHeader(|c|);
      assert b == h + (c + rest);
      HeaderParses(b, 0xC0, 0xF7, ListKind, |c|, c + rest);
      assert b[|h|..|h| + |c|] == c;
      ParseEncodeAll(xs);
  }

  lemma {:induction false} ParseEncodeAll(xs: seq<Item>)
    requires |EncodeAll(xs)| < LIMIT
    ensures ParseAll(EncodeAll(xs)) == Some(xs)
    decreases xs
  {
    if xs != [] {
      var e, es := Encode(xs[0]), EncodeAll(xs[1..]);
      ParseEncode(xs[0], es);
      ParseEncodeAll(xs[1..]);
      assert (e + es)[|e|..] == es;
      assert xs == [xs[0]] + xs[1..];
    }
  }

  // ----- Encoding undoes parsing: only canonical strings are accepted

  lemma SizeCanonical(b: seq<Byte>, n: nat)
    requires 1 <= n <= 8 && ParseSize(b, n).Some?
    ensures ParseSize(b, n).value < LIMIT && BigEndian(ParseSize(b, n).value) == b[..n]
  {
    SizeBound(b[..n]);
    BigEndianUnique(b[..n]);
  }

  lemma HeadCanonical(b: seq<Byte>)
    requires ParseHead(b).Some?
    ensures var Head(k, tag, size) := ParseHead(b).value;
            && (k == ByteKind ==> tag == 0 && size == 1 && b[0] < 128)
            && (k == StringKind ==> b[..tag] == StrHeader(size) && !(size == 1 && b[tag] < 128))
            && (k == ListKind ==> b[..tag] == ListHeader(size))
  {
    var t := b[0];
    var Head(k, tag, size) := ParseHead(b).value;
    if t >= 0xF8 || 0xB8 <= t < 0xC0 {
      var n := if t >= 0xF8 then t - 0xF7 else t - 0xB7;
      SizeCanonical(b[1..], n);
      assert b[..tag] == [t] + b[1..][..n];
    } else if t >= 0x80 {
      assert b[..tag] == [t];
    }
  }

  lemma {:induction false} EncodeParse(b: seq<Byte>)
    requires Parse(b).Some?
    ensures Encode(Parse(b).value.0) == b[..Parse(b).value.1]
    decreases |b|, 0
  {
    hide ParseHead, Header;
    HeadCanonical(b);
    var Head(k, tag, size) := ParseHead(b).value;
    var content := b[tag..tag + size];
    assert b[..tag + size] == b[..tag] + content;
    if k.ListKind? {
      EncodeParseAll(content);
    }
  }

  lemma {:induction false} EncodeParseAll(b: seq<Byte>)
    requires ParseAll(b).Some?
    ensures EncodeAll(ParseAll(b).value) == b
    decreases |b|, 1
  {
    if b != [] {
      EncodeParse(b);
      var n := Parse(b).value.1;
      EncodeParseAll(b[n..]);
      assert b == b[..n] + b[n..];
      var xs := ParseAll(b).value;
      assert xs[1..] == ParseAll(b[n..]).value;
    }
  }

  /** DecodeBytes: exactly one value and no trailing data. */
  function Decode(b: seq<Byte>): (r: Option<Item>)
  {
    var p := Parse(b);
    if p.Some? && p.value.1 == |b| then Some(p.value.0) else None
  }

  /** The accepted strings are exactly the encodings, one for each item. */
  lemma DecodeIffEncode(b: seq<Byte>, x: Item)
    requires |b| < LIMIT
    ensures Decode(b) == Some(x) <==> b == Encode(x)
  {
    if Decode(b) == Some(x) {
      EncodeParse(b);
      assert b[..|b|] == b;
    }
    if b == Encode(x) {
      ParseEncode(x, []);
      assert b + [] == b;
    }
  }

  lemma EncodeInjective(x: Item, y: Item)
    requires Encode(x) == Encode(y) && |Encode(x)| < LIMIT
    ensures x == y
  {
    DecodeIffEncode(Encode(x), x);
    DecodeIffEncode(Encode(x), y);
  }
}
