/** Reading encoded values straight from a byte slice (raw.go). */
module RlpRaw {
  import opened Wrappers
  import opened Pieces
  import opened RlpFormat

  datatype Error = UnexpectedEOF | CanonSize | ValueTooLarge | ExpectedString | ExpectedList

  datatype Result<+T> = Ok(value: T) | Err(error: Error)

  lemma FromBigEndianStep(b: seq<Byte>, k: nat)
    requires k < |b|
    ensures FromBigEndian(b[..k + 1]) == FromBigEndian(b[..k]) * 256 + b[k]
  {
    assert b[..k + 1][..k] == b[..k];
  }

  /** uint64(b[i]) */
  function At(b: seq<Byte>, i: nat): (n: nat)
    requires i < |b|
  {
    b[i]
  }

  /** The shifts of readSize, one case per length. */
  function ShiftedSize(b: seq<Byte>, n: nat): (s: nat)
    requires n <= |b|
  {
    match n
    case 1 => At(b, 0)
    case 2 => At(b, 0) * 0x100 + At(b, 1)
    case 3 => At(b, 0) * 0x1_0000 + At(b, 1) * 0x100 + At(b, 2)
    case 4 => At(b, 0) * 0x100_0000 + At(b, 1) * 0x1_0000 + At(b, 2) * 0x100 + At(b, 3)
    case 5 => At(b, 0) * 0x1_0000_0000 + At(b, 1) * 0x100_0000 + At(b, 2) * 0x1_0000 + At(b, 3) * 0x100 + At(b, 4)
    case 6 => At(b, 0) * 0x100_0000_0000 + At(b, 1) * 0x1_0000_0000 + At(b, 2) * 0x100_0000 + At(b, 3) * 0x1_0000 + At(b, 4) * 0x100 + At(b, 5)
    case 7 => At(b, 0) * 0x1_0000_0000_0000 + At(b, 1) * 0x100_0000_0000 + At(b, 2) * 0x1_0000_0000 + At(b, 3) * 0x100_0000
              + At(b, 4) * 0x1_0000 + At(b, 5) * 0x100 + At(b, 6)
    case 8 => At(b, 0) * 0x100_0000_0000_0000 + At(b, 1) * 0x1_0000_0000_0000 + At(b, 2) * 0x100_0000_0000 + At(b, 3) * 0x1_0000_0000
              + At(b, 4) * 0x100_0000 + At(b, 5) * 0x1_0000 + At(b, 6) * 0x100 + At(b, 7)
    case _ => 0
  }

  lemma ShiftedSizeValue(b: seq<Byte>, n: nat)
    requires 1 <= n <= 8 && n <= |b|
    ensures ShiftedSize(b, n) == FromBigEndian(b[..n])
  {
    hide FromBigEndian;
    assert FromBigEndian(b[..0]) == 0 by { EmptyBigEndian(b[..0]); }
    FromBigEndianStep(b, 0);
    if n > 1 { FromBigEndianStep(b, 1); }
    if n > 2 { FromBigEndianStep(b, 2); }
    if n > 3 { FromBigEndianStep(b, 3); }
    if n > 4 { FromBigEndianStep(b, 4); }
    if n > 5 { FromBigEndianStep(b, 5); }
    if n > 6 { FromBigEndianStep(b, 6); }
    if n > 7 { FromBigEndianStep(b, 7); }
  }

  lemma EmptyBigEndian(b: seq<Byte>)
    requires b == []
    ensures FromBigEndian(b) == 0
  {
  }

  /** readSize */
  function ReadSize(b: seq<Byte>, n: nat): (r: Result<nat>)
    requires 1 <= n <= 8
    ensures r.Ok? <==> ParseSize(b, n).Some?
    ensures r.Ok? ==> ParseSize(b, n) == Some(r.value)
  {
    if n > |b| then Err(UnexpectedEOF)
    else
      var s := ShiftedSize(b, n);
      ShiftedSizeValue(b, n);
      if s < 56 || b[0] == 0 then Err(CanonSize) else Ok(s)
  }

  /** readKind: kind, header length and content length of the first value. */
  function ReadKind(buf: seq<Byte>): (r: Result<Head>)
    ensures r.Ok? <==> ParseHead(buf).Some?
    ensures r.Ok? ==> ParseHead(buf) == Some(r.value)
  {
    if |buf| == 0 then Err(UnexpectedEOF)
    else
      var b := buf[0];
      var r :=
        if b < 0x80 then Ok(Head(ByteKind, 0, 1))
        else if b < 0xB8 then
          var size := b - 0x80;
          if size == 1 && |buf| > 1 && buf[1] < 128 then Err(CanonSize)
          else Ok(Head(StringKind, 1, size))
        else if b < 0xC0 then
          var size := ReadSize(buf[1..], b - 0xB7);
          if size.Err? then Err(size.error) else Ok(Head(StringKind, b - 0xB7 + 1, size.value))
        else if b < 0xF8 then Ok(Head(ListKind, 1, b - 0xC0))
        else
          var size := ReadSize(buf[1..], b - 0xF7);
          if size.Err? then Err(size.error) else Ok(Head(ListKind, b - 0xF7 + 1, size.value));
      if r.Err? then r
      else if r.value.size > |buf| - r.value.tag then Err(ValueTooLarge)
      else r
  }

  /** How many bytes spell the size after a tag byte. */
  function SizeBytes(t: Byte): (n: nat)
  {
    if 184 <= t < 192 then t - 183 else if 248 <= t then t - 247 else 0
  }

  /** Which error a head that is not accepted has. */
  lemma HeadErrors(b: seq<Byte>)
    ensures ReadKind(b) == Err(UnexpectedEOF) <==> b == [] || |b| <= SizeBytes(b[0])
    ensures ReadKind(b) == Err(CanonSize) <==>
              && b != [] && |b| > SizeBytes(b[0])
              && if SizeBytes(b[0]) > 0 then b[1] == 0 || FromBigEndian(b[1..1 + SizeBytes(b[0])]) < 56
                 else b[0] == 129 && |b| > 1 && b[1] < 128
    ensures ReadKind(b) == Err(ValueTooLarge) <==>
              && ReadKind(b).Err? && b != [] && |b| > SizeBytes(b[0])
              && if SizeBytes(b[0]) > 0 then b[1] != 0 && FromBigEndian(b[1..1 + SizeBytes(b[0])]) >= 56
                 else !(b[0] == 129 && |b| > 1 && b[1] < 128)
  {
    hide FromBigEndian, ShiftedSize;
    if b != [] && SizeBytes(b[0]) > 0 && |b| > SizeBytes(b[0]) {
      ShiftedSizeValue(b[1..], SizeBytes(b[0]));
      assert b[1..][..SizeBytes(b[0])] == b[1..1 + SizeBytes(b[0])];
    }
  }

  /** Split: (kind, content, rest), or the error and the whole input as rest. */
  function Split(b: seq<Byte>): (r: Result<(Kind, seq<Byte>, seq<Byte>)>)
  {
    var h := ReadKind(b);
    if h.Err? then Err(h.error)
    else
      var Head(k, tag, size) := h.value;
      Ok((k, b[tag..tag + size], b[tag + size..]))
  }

  /** Split cuts the first encoded value off whatever follows it. */
  lemma SplitEncoded(x: Item, rest: seq<Byte>)
    requires |Encode(x)| < LIMIT
    ensures Split(Encode(x) + rest).Ok?
    ensures var (k, content, tail) := Split(Encode(x) + rest).value;
            && tail == rest
            && (k.ListKind? <==> x.Lst?)
            && content == if x.Lst? then EncodeAll(x.items) else x.bytes
  {
    var b := Encode(x) + rest;
    ParseEncode(x, rest);
    EncodeParse(b);
    HeadCanonical(b);
    var Head(k, tag, size) := ParseHead(b).value;
    assert b[tag + size..] == rest;
    if k.ListKind? {
      EncodeParseAll(b[tag..tag + size]);
    }
  }

  /** What CountValues returns: how many heads follow each other up to the end. */
  function Heads(b: seq<Byte>): (n: Option<nat>)
    decreases |b|
  {
    if b == [] then Some(0)
    else
      var h := ParseHead(b);
      if h.None? then None
      else
        var n := Heads(b[h.value.tag + h.value.size..]);
        if n.None? then None else Some(n.value + 1)
  }

  /** CountValues */
  method CountValues(b0: seq<Byte>) returns (r: Result<nat>)
    ensures r.Ok? <==> Heads(b0).Some?
    ensures r.Ok? ==> Heads(b0) == Some(r.value)
  {
    hide ParseHead, ReadKind;
    var b, i := b0, 0;
    while |b| > 0
      invariant Heads(b0).Some? <==> Heads(b).Some?
      invariant Heads(b).Some? ==> Heads(b0).value == i + Heads(b).value
      decreases |b|
    {
      var h := ReadKind(b);
      if h.Err? {
        return Err(h.error);
      }
      b := b[h.value.tag + h.value.size..];
      i := i + 1;
    }
    return Ok(i);
  }

  /** CountValues of a list's content is the number of its items. */
  lemma {:induction false} HeadsEncoded(xs: seq<Item>)
    requires |EncodeAll(xs)| < LIMIT
    ensures Heads(EncodeAll(xs)) == Some(|xs|)
    decreases xs
  {
    if xs != [] {
      var e, es := Encode(xs[0]), EncodeAll(xs[1..]);
      ParseEncode(xs[0], es);
      HeadsEncoded(xs[1..]);
      assert (e + es)[|e|..] == es;
    }
  }

  /** Where the stream reads the elements of a list, the count is their number. */
  lemma {:induction false} CountAgrees(b: seq<Byte>)
    requires ParseAll(b).Some?
    ensures Heads(b) == Some(|ParseAll(b).value|)
    decreases |b|
  {
    hide ParseHead;
    if b != [] {
      CountAgrees(b[Parse(b).value.1..]);
    }
  }

  /** The byte groups of putint and AppendUint64. */
  function PutInt(i: nat): (b: seq<Byte>)
    requires i < LIMIT
  {
    if i < 0x100 then [i]
    else if i < 0x1_0000 then [i / 0x100, i % 0x100]
    else if i < 0x100_0000 then [i / 0x1_0000, i / 0x100 % 0x100, i % 0x100]
    else if i < 0x1_0000_0000 then [i / 0x100_0000, i / 0x1_0000 % 0x100, i / 0x100 % 0x100, i % 0x100]
    else if i < 0x100_0000_0000 then
      [i / 0x1_0000_0000, i / 0x100_0000 % 0x100, i / 0x1_0000 % 0x100, i / 0x100 % 0x100, i % 0x100]
    else if i < 0x1_0000_0000_0000 then
      [i / 0x100_0000_0000, i / 0x1_0000_0000 % 0x100, i / 0x100_0000 % 0x100, i / 0x1_0000 % 0x100,
       i / 0x100 % 0x100, i % 0x100]
    else if i < 0x100_0000_0000_0000 then
      [i / 0x1_0000_0000_0000, i / 0x100_0000_0000 % 0x100, i / 0x1_0000_0000 % 0x100, i / 0x100_0000 % 0x100,
       i / 0x1_0000 % 0x100, i / 0x100 % 0x100, i % 0x100]
    else
      [i / 0x100_0000_0000_0000, i / 0x1_0000_0000_0000 % 0x100, i / 0x100_0000_0000 % 0x100,
       i / 0x1_0000_0000 % 0x100, i / 0x100_0000 % 0x100, i / 0x1_0000 % 0x100, i / 0x100 % 0x100, i % 0x100]
  }

  /** The unrolled groups are the minimal big-endian form, with one byte for zero. */
  lemma PutIntIsBigEndian(i: nat)
    requires i < LIMIT
    ensures PutInt(i) == if i == 0 then [0] else BigEndian(i)
    decreases i
  {
    if i == 0 {
    } else if i < 0x100 {
      assert BigEndian(i / 256) == [];
    } else {
      PutIntIsBigEndian(i / 256);
      PutIntStep(i);
    }
  }

  lemma PutIntStep(i: nat)
    requires 0x100 <= i < LIMIT
    ensures PutInt(i) == PutInt(i / 256) + [i % 256]
  {
    var h := i / 256;
    assert h / 0x100 == i / 0x1_0000 && h / 0x1_0000 == i / 0x100_0000 && h / 0x100_0000 == i / 0x1_0000_0000;
    assert h / 0x1_0000_0000 == i / 0x100_0000_0000 && h / 0x100_0000_0000 == i / 0x1_0000_0000_0000;
    assert h / 0x1_0000_0000_0000 == i / 0x100_0000_0000_0000;
  }

  /** AppendUint64 */
  function AppendUint64(b: seq<Byte>, i: nat): (r: seq<Byte>)
    requires i < LIMIT
  {
    if i == 0 then b + [0x80]
    else if i < 128 then b + [i]
    else b + [0x80 + |PutInt(i)|] + PutInt(i)
  }

  /** An integer is appended as the string of its minimal big-endian bytes. */
  lemma AppendUint64Encodes(b: seq<Byte>, i: nat)
    requires i < LIMIT
    ensures AppendUint64(b, i) == b + Encode(Str(BigEndian(i)))
  {
    if i > 0 {
      PutIntIsBigEndian(i);
      BigEndianValue(i);
    }
  }
}
