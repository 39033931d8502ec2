/** The decoding stream of decode.go: a stack machine over a byte reader, with cached
    type information, size limits for every open list and canonicality checks. */
module RlpDecoder {
  import opened Wrappers
  import opened Pieces
  import opened RlpFormat
  import RlpEncoder
  import RlpRaw

  datatype StreamError =
    | NoErr | EOL | EOF | CanonSize | ElemTooLarge | ValueTooLarge
    | CanonInt | UintOverflow | ExpectedString | ExpectedList | NotInList | NotAtEOL | MoreThanOneValue

  /** listpos: how much of a list of `size` bytes has been read. */
  datatype ListPos = ListPos(pos: nat, size: nat)

  /** The header at the front of w as the stream reads it: kind, header length, size.
      A single byte is all header and has size 0. */
  function AnyHead(w: seq<Byte>): (h: Option<Head>)
    ensures h.Some? ==> 1 <= h.value.tag <= |w|
  {
    if w == [] then None
    else
      var t := w[0];
      if t < 0x80 then Some(Head(ByteKind, 1, 0))
      else if t < 0xB8 then Some(Head(StringKind, 1, t - 0x80))
      else if t < 0xC0 then WithSize(StringKind, t - 0xB7, ParseSize(w[1..], t - 0xB7))
      else if t < 0xF8 then Some(Head(ListKind, 1, t - 0xC0))
      else WithSize(ListKind, t - 0xF7, ParseSize(w[1..], t - 0xF7))
  }

  /** A header whose value fits in w. */
  function StreamHead(w: seq<Byte>): (h: Option<Head>)
    ensures h.Some? ==> 1 <= h.value.tag && h.value.tag + h.value.size <= |w|
  {
    var h := AnyHead(w);
    if h.Some? && h.value.tag + h.value.size > |w| then None else h
  }

  /** The bytes that the header of the stream announces. */
  function StreamContent(w: seq<Byte>): (c: seq<Byte>)
    requires StreamHead(w).Some?
    ensures |c| == StreamHead(w).value.size
  {
    var h := StreamHead(w).value;
    w[h.tag..h.tag + h.size]
  }

  predicate ListAhead(w: seq<Byte>)
  {
    StreamHead(w).Some? && StreamHead(w).value.kind.ListKind?
  }

  /** The elements of the list at the front of w. */
  function ItemsAhead(w: seq<Byte>): (xs: Option<seq<Item>>)
  {
    if ListAhead(w) then ParseAll(StreamContent(w)) else None
  }

  /** The string at the front of w, in the form that Bytes accepts. */
  function BytesAhead(w: seq<Byte>): (b: Option<seq<Byte>>)
  {
    var h := StreamHead(w);
    if h.None? || h.value.kind.ListKind? then None
    else if h.value.kind.ByteKind? then Some(w[..1])
    else if h.value.size == 1 && w[h.value.tag] < 128 then None
    else Some(StreamContent(w))
  }

  /** The integer at the front of w, if it is no longer than `limit` bytes. */
  function UintAhead(w: seq<Byte>, limit: nat): (v: Option<nat>)
  {
    if BytesAhead(w).None? then None
    else
      var b := BytesAhead(w).value;
      if |b| > limit || (b != [] && b[0] == 0) then None else Some(FromBigEndian(b))
  }

  /** Why there is none in a value that is there. */
  function UintError(w: seq<Byte>, limit: nat): (err: StreamError)
    requires StreamHead(w).Some?
  {
    if ListAhead(w) then ExpectedString
    else if StreamHead(w).value.size > limit then UintOverflow
    else if StreamHead(w).value.size == 1 then CanonSize
    else CanonInt
  }

  /** The parser by the header that the stream reads. */
  lemma ParseByHead(w: seq<Byte>)
    ensures Parse(w) ==
              if ListAhead(w) then
                if ItemsAhead(w).Some? then Some((Lst(ItemsAhead(w).value), Extent(w))) else None
              else if BytesAhead(w).Some? then Some((Str(BytesAhead(w).value), Extent(w))) else None
  {
    StreamHeadAgrees(w);
    if StreamHead(w).Some? && StreamHead(w).value.kind.ByteKind? {
      ByteHead(w);
    }
    hide ParseAll, ParseHead, StreamHead;
  }

  /** The bytes of the value at the front of w, header included. */
  function Extent(w: seq<Byte>): (n: nat)
    ensures n <= |w|
  {
    if StreamHead(w).Some? then StreamHead(w).value.tag + StreamHead(w).value.size else 0
  }

  /** The stream and the slice reader find the same header, except that the stream
      leaves the single-byte rule to whoever reads the string. */
  lemma StreamHeadAgrees(w: seq<Byte>)
    ensures ParseHead(w).Some? <==>
              StreamHead(w).Some? &&
              var h := StreamHead(w).value;
              !(h.kind == StringKind && h.size == 1 && w[h.tag] < 128)
    ensures ParseHead(w).Some? ==>
              var h, p := StreamHead(w).value, ParseHead(w).value;
              && h.kind == p.kind && h.tag + h.size == p.tag + p.size
              && (h.kind != ByteKind ==> h == p)
              && (h.kind == ByteKind ==> h.tag == 1 && h.size == 0 && p.tag == 0)
  {
  }

  function Advance(stack: seq<ListPos>, n: nat): (s: seq<ListPos>)
    ensures |s| == |stack|
  {
    if stack == [] then []
    else
      var t := stack[|stack| - 1];
      stack[|stack| - 1 := ListPos(t.pos + n, t.size)]
  }

  lemma AdvanceTwice(stack: seq<ListPos>, m: nat, n: nat)
    ensures Advance(Advance(stack, m), n) == Advance(stack, m + n)
  {
  }

  lemma AdvanceTop(stack: seq<ListPos>, t: ListPos, n: nat)
    ensures Advance(stack + [t], n) == stack + [ListPos(t.pos + n, t.size)]
  {
  }

  /** A list that was opened and read to its end moves its parent along when it is closed. */
  lemma ListClosed(outer: seq<ListPos>, n: nat, ends: seq<nat>, e: nat)
    ensures var s := Advance(outer + [ListPos(0, n)], n);
            |s| == |outer| + 1 && s[|outer|] == ListPos(n, n) && s[..|outer|] == outer
    ensures (ends + [e])[..|ends|] == ends
  {
    AdvanceTop(outer, ListPos(0, n), n);
  }

  lemma EmptyList(w: seq<Byte>)
    requires w == []
    ensures ParseAll(w) == Some([])
  {
  }

  /** Where the innermost open list ends; the input does when none is open. */
  ghost function Innermost(ends: seq<nat>, limit: nat): (e: nat)
  {
    if ends == [] then limit else ends[|ends| - 1]
  }

  /** Every list position is within its list, every open list ends within its parent
      and within the input, and the positions say exactly how far that is. */
  ghost predicate Nested(stack: seq<ListPos>, ends: seq<nat>, off: nat, limit: nat)
  {
    && |ends| == |stack| && off <= Innermost(ends, limit) <= limit
    && (forall i :: 0 <= i < |stack| ==> stack[i].pos <= stack[i].size && ends[i] <= limit)
    && (stack != [] ==> stack[|stack| - 1].size - stack[|stack| - 1].pos == ends[|ends| - 1] - off)
    && (forall i :: 0 <= i < |stack| - 1 ==> Encloses(stack, ends, i))
  }

  ghost predicate Encloses(stack: seq<ListPos>, ends: seq<nat>, i: nat)
    requires |ends| == |stack| && i + 1 < |stack|
  {
    && ends[i + 1] <= ends[i]
    && stack[i].size - stack[i].pos == ends[i] - ends[i + 1] + stack[i + 1].size
  }

  lemma NestedAdvance(stack: seq<ListPos>, ends: seq<nat>, off: nat, limit: nat, n: nat)
    requires Nested(stack, ends, off, limit) && off + n <= Innermost(ends, limit)
    ensures Nested(Advance(stack, n), ends, off + n, limit)
  {
    var s := Advance(stack, n);
    forall i | 0 <= i < |s| - 1
      ensures Encloses(s, ends, i)
    {
      assert Encloses(stack, ends, i);
    }
  }

  lemma NestedPush(stack: seq<ListPos>, ends: seq<nat>, off: nat, limit: nat, sz: nat)
    requires Nested(stack, ends, off, limit) && off + sz <= Innermost(ends, limit)
    ensures Nested(stack + [ListPos(0, sz)], ends + [off + sz], off, limit)
  {
    var s, e := stack + [ListPos(0, sz)], ends + [off + sz];
    forall i | 0 <= i < |s| - 1
      ensures Encloses(s, e, i)
    {
      assert i < |stack| - 1 ==> Encloses(stack, ends, i);
    }
  }

  lemma NestedPop(stack: seq<ListPos>, ends: seq<nat>, off: nat, limit: nat)
    requires Nested(stack, ends, off, limit) && stack != [] && off == ends[|ends| - 1]
    ensures var outer := stack[..|stack| - 1];
            Nested(Advance(outer, stack[|outer|].size), ends[..|outer|], off, limit)
  {
    var outer, e := stack[..|stack| - 1], ends[..|stack| - 1];
    var s := Advance(outer, stack[|outer|].size);
    if outer != [] {
      assert Encloses(stack, ends, |outer| - 1);
    }
    forall i | 0 <= i < |s| - 1
      ensures Encloses(s, e, i)
    {
      assert Encloses(stack, ends, i);
    }
  }

  lemma SliceWithin(w: seq<Byte>, i: nat, j: nat, m: nat, n: nat)
    requires i <= j <= |w| && m <= n <= j - i
    ensures w[i..j][m..n] == w[i + m..i + n]
  {
    var u := w[i..j];
    forall k | 0 <= k < n - m
      ensures u[m..n][k] == w[i + m..i + n][k]
    {
    }
  }

  lemma SliceTail(w: seq<Byte>, i: nat, j: nat, n: nat)
    requires i <= j <= |w| && n <= j - i
    ensures w[i..j][n..] == w[i + n..j]
  {
  }

  /** What Bytes returns is the string whose encoding it consumed. */
  lemma BytesEncode(w: seq<Byte>)
    requires BytesAhead(w).Some?
    ensures EncodeStr(BytesAhead(w).value) == w[..Extent(w)]
  {
    ParseByHead(w);
    EncodeParse(w);
    hide BytesAhead, ItemsAhead, Extent, Parse, EncodeStr, StreamHead;
    assert !ListAhead(w) by { HeadlessFails(w); }
  }

  /** The integer by the header and the number that its bytes spell. */
  lemma UintByHead(w: seq<Byte>, limit: nat)
    requires limit >= 1
    ensures UintAhead(w, limit) ==
              if StreamHead(w).None? || ListAhead(w) then None
              else if StreamHead(w).value.kind.ByteKind? then if w[0] == 0 then None else Some(w[0])
              else
                var c := StreamContent(w);
                if |c| > limit || (|c| >= 2 && c[0] == 0) || (c != [] && FromBigEndian(c) < 128) then None
                else Some(FromBigEndian(c))
  {
    if StreamHead(w).Some? && !ListAhead(w) {
      var h := StreamHead(w).value;
      if h.kind.ByteKind? {
        ByteHead(w);
        SmallBigEndian(w[..1]);
      } else {
        SmallBigEndian(StreamContent(w));
      }
    }
    hide StreamHead;
  }

  lemma SmallBigEndian(b: seq<Byte>)
    ensures |b| == 1 ==> FromBigEndian(b) == b[0]
    ensures |b| >= 2 && b[0] != 0 ==> FromBigEndian(b) >= 128
  {
    if b != [] {
      var c := b[..|b| - 1];
      assert |b| == 1 ==> c == [];
      if b[0] != 0 && c != [] {
        BigEndianUnique(c);
      }
    }
  }

  /** Uint accepts exactly what AppendUint64 writes, and returns the number written. */
  lemma UintIff(w: seq<Byte>, limit: nat, v: nat)
    requires 1 <= limit <= 8
    ensures UintAhead(w, limit) == Some(v) <==> v < LIMIT && v < Pow256(limit) && RlpRaw.AppendUint64([], v) <= w
    ensures UintAhead(w, limit) == Some(v) ==> w[..Extent(w)] == RlpRaw.AppendUint64([], v)
  {
    if UintAhead(w, limit) == Some(v) {
      UintWritten(w, limit, v);
    }
    if v < LIMIT && v < Pow256(limit) && RlpRaw.AppendUint64([], v) <= w {
      WrittenUint(w, limit, v);
    }
  }

  lemma UintWritten(w: seq<Byte>, limit: nat, v: nat)
    requires 1 <= limit <= 8 && UintAhead(w, limit) == Some(v)
    ensures v < LIMIT && v < Pow256(limit) && w[..Extent(w)] == RlpRaw.AppendUint64([], v)
  {
    var b := BytesAhead(w).value;
    BytesEncode(w);
    BigEndianUnique(b);
    FromBigEndianBound(b);
    Pow256Monotone(|b|, limit);
    SizeBound(b);
    RlpRaw.AppendUint64Encodes([], v);
    hide BytesAhead, Extent, RlpRaw.AppendUint64, EncodeStr, BigEndian, FromBigEndian;
  }

  lemma WrittenUint(w: seq<Byte>, limit: nat, v: nat)
    requires 1 <= limit <= 8 && v < LIMIT && v < Pow256(limit) && RlpRaw.AppendUint64([], v) <= w
    ensures UintAhead(w, limit) == Some(v)
  {
    var b := BigEndian(v);
    var e := RlpRaw.AppendUint64([], v);
    RlpRaw.AppendUint64Encodes([], v);
    BigEndianValue(v);
    BigEndianLength(v, limit);
    assert |b| > 0 || v == 0;
    assert |e| < LIMIT && w == e + w[|e|..];
    assert e == Encode(Str(b));
    ParseEncode(Str(b), w[|e|..]);
    ParseByHead(w);
    hide BytesAhead, ItemsAhead, Parse, Encode, BigEndian, FromBigEndian, RlpRaw.AppendUint64;
  }

  lemma HeadlessFails(w: seq<Byte>)
    ensures StreamHead(w).None? ==> !ListAhead(w) && BytesAhead(w).None?
    ensures ListAhead(w) ==> BytesAhead(w).None?
  {
  }

  lemma ByteHead(w: seq<Byte>)
    requires StreamHead(w).Some? && StreamHead(w).value.kind.ByteKind?
    ensures StreamHead(w).value.tag == 1 && StreamHead(w).value.size == 0
  {
  }

  lemma NoHead()
    ensures StreamHead([]).None?
  {
  }

  /** The check after a header was read: its value has to fit in what is left. */
  lemma FitsIn(w: seq<Byte>, rest: seq<Byte>, k: Kind, n: nat, sz: nat, err: StreamError)
    requires err == NoErr <==> AnyHead(w).Some?
    requires err == NoErr ==> AnyHead(w) == Some(Head(k, n, sz)) && |rest| == |w| - n
    ensures StreamHead(w).Some? <==> err == NoErr && sz <= |rest|
    ensures StreamHead(w).Some? ==> StreamHead(w) == Some(Head(k, n, sz))
  {
  }

  class Stream {
    const input: seq<Byte>      // the contents of the bytes.Reader
    var off: nat                // and its position
    var remaining: nat
    var kind: Option<Kind>      // None is the -1 that rearms Kind
    var size: nat
    var byteval: Byte
    var kinderr: StreamError
    var stack: seq<ListPos>
    ghost var ends: seq<nat>    // where each open list ends in the input
    ghost var head: nat         // where the cached header begins

    /** Reset with the length of the slice as the limit. */
    constructor (b: seq<Byte>)
      requires |b| < LIMIT
      ensures input == b && off == 0 && stack == [] && kind == None && Sound() && Front() == b
    {
      input, off, remaining := b, 0, |b|;
      kind, size, byteval, kinderr, stack, ends, head := None, 0, 0, NoErr, [], [], 0;
    }

    ghost function End(): (e: nat)
      reads `ends
    {
      Innermost(ends, |input|)
    }

    /** The reader, the input limit and the open lists agree. */
    ghost predicate Valid()
      reads `off, `remaining, `stack, `ends
    {
      |input| < LIMIT && off + remaining == |input| && Nested(stack, ends, off, |input|)
    }

    /** So do the cached type information and the header it was read from. */
    ghost predicate Sound()
      reads this
    {
      Valid() && kinderr != EOL && (kind.Some? && kinderr == NoErr ==> Cached())
    }

    ghost predicate Cached()
      requires kind.Some?
      reads this
    {
      && head <= off <= End() <= |input|
      && StreamHead(input[head..End()]) == Some(Head(kind.value, off - head, size))
      && (kind == Some(ByteKind) ==> byteval == input[head..End()][0])
    }

    /** A header that could not be read stays in the way of every reading call. */
    ghost predicate Stuck()
      reads `kind, `kinderr
    {
      kind.Some? && kinderr != NoErr
    }

    /** The bytes up to the end of the innermost open list. */
    ghost function Window(): (w: seq<Byte>)
      requires Valid()
      reads `off, `remaining, `stack, `ends
    {
      input[off..End()]
    }

    /** Where the next value starts: at its header, if that is cached. */
    ghost function Start(): (n: nat)
      reads `off, `kind, `kinderr, `head
    {
      if kind.Some? && kinderr == NoErr then head else off
    }

    /** The next value and all that follows it in the innermost open list. */
    ghost function Front(): (w: seq<Byte>)
      requires Sound()
      reads this
    {
      input[Start()..End()]
    }

    ghost predicate AtEnd()
      requires Sound()
      reads this
    {
      kind == None && stack != [] && Front() == []
    }

    /** willRead: n bytes are charged to the innermost list and to the input limit. */
    method WillRead(n: nat) returns (err: StreamError)
      requires Valid()
      modifies this`kind, this`stack, this`remaining
      ensures kind == None
      ensures err == NoErr <==> n <= End() - off
      ensures err == NoErr ==> stack == Advance(old(stack), n) && remaining == old(remaining) - n
      ensures err != NoErr ==> Valid() && unchanged(`stack, `remaining)
      ensures err != NoErr ==> err == (if stack == [] then ValueTooLarge else ElemTooLarge)
    {
      kind := None;
      if |stack| > 0 {
        var tos := stack[|stack| - 1];
        if n > tos.size - tos.pos {
          return ElemTooLarge;
        }
        stack := stack[|stack| - 1 := ListPos(tos.pos + n, tos.size)];
      }
      if n > remaining {
        return ValueTooLarge;
      }
      remaining := remaining - n;
      return NoErr;
    }

    /** Reading n bytes moves the window along. */
    twostate predicate Consumed(n: nat)
      reads `off, `remaining, `stack, `ends
    {
      && old(Valid()) && Valid() && n <= |old(Window())| && Window() == old(Window())[n..]
      && off == old(off) + n && remaining == old(remaining) - n
      && stack == Advance(old(stack), n) && ends == old(ends)
    }

    /** A value of n bytes, header included, was read, whether its header was cached before. */
    twostate predicate Took(n: nat)
      reads this
    {
      && old(Sound()) && Sound() && kind == None && ends == old(ends) && old(off) <= off
      && off == old(Start()) + n && n <= |old(Front())| && Front() == old(Front())[n..]
      && stack == Advance(old(stack), off - old(off))
    }

    /** A call that reads a value of n bytes, and succeeds if `ok` unless an earlier
        header failed. At the end of a list it changes nothing. */
    twostate predicate Tried(err: StreamError, ok: bool, n: nat)
      requires old(Sound())
      reads this
    {
      && Sound() && old(off) <= off
      && (err == EOL <==> old(AtEnd())) && (err == EOL ==> unchanged(`kind, `off, `remaining, `stack, `ends))
      && (err == NoErr <==> !old(Stuck()) && ok) && (err == NoErr ==> Took(n))
    }

    /** Of any outcome: the limits hold, nothing is read twice, an earlier failure stays. */
    twostate predicate Onward(err: StreamError)
      requires old(Sound())
      reads this
    {
      Sound() && old(off) <= off && old(Start()) <= Start() && (old(Stuck()) ==> unchanged(this) && err == kinderr)
    }

    /** Nor is an open list lost. */
    twostate predicate Steady(err: StreamError)
      requires old(Sound())
      reads this
    {
      Onward(err) && ends == old(ends) && |stack| == |old(stack)|
    }

    /** The two limits measure the window. */
    lemma Room()
      requires Valid()
      ensures stack != [] ==> stack[|stack| - 1].pos + |Window()| == stack[|stack| - 1].size
      ensures stack == [] ==> remaining == |Window()|
      ensures |Window()| <= remaining < LIMIT && off <= End() <= |input| && |ends| == |stack|
    {
    }

    /** readFull into a buffer of n bytes. */
    method ReadFull(n: nat) returns (b: seq<Byte>, err: StreamError)
      requires Valid()
      modifies this`kind, this`stack, this`remaining, this`off
      ensures kind == None
      ensures err == NoErr <==> n <= |old(Window())|
      ensures err == NoErr ==> Consumed(n) && b == old(Window())[..n]
      ensures err != NoErr ==> Valid() && unchanged(`stack, `remaining, `off)
      ensures err != NoErr ==> err == (if stack == [] then ValueTooLarge else ElemTooLarge)
    {
      Room();
      err := WillRead(n);
      if err != NoErr {
        return [], err;
      }
      NestedAdvance(old(stack), ends, off, |input|, n);
      SliceWithin(input, off, End(), 0, n);
      SliceTail(input, off, End(), n);
      hide Nested, Advance;
      b := input[off..off + n];
      off := off + n;
    }

    method ReadByte() returns (b: Byte, err: StreamError)
      requires Valid()
      modifies this`kind, this`stack, this`remaining, this`off
      ensures kind == None
      ensures err == NoErr <==> old(Window()) != []
      ensures err == NoErr ==> Consumed(1) && b == old(Window())[0]
      ensures err != NoErr ==> Valid() && unchanged(`stack, `remaining, `off)
      ensures err != NoErr ==> err == (if stack == [] then ValueTooLarge else ElemTooLarge)
    {
      hide Valid, Window, Advance;
      var bs;
      bs, err := ReadFull(1);
      if err != NoErr {
        return 0, err;
      }
      b := bs[0];
    }

    /** readUint of n bytes */
    method ReadUint(n: nat) returns (v: nat, err: StreamError)
      requires Valid() && n <= 8
      modifies this`kind, this`stack, this`remaining, this`off
      ensures kind == None && Valid() && old(off) <= off && |stack| == |old(stack)|
      ensures err == NoErr <==> n <= |old(Window())| && (n < 2 || old(Window())[0] != 0)
      ensures err == NoErr ==> Consumed(n) && v == FromBigEndian(old(Window())[..n])
      ensures err == CanonSize <==> n <= |old(Window())| && n >= 2 && old(Window())[0] == 0
      ensures err != NoErr ==> err in {ValueTooLarge, ElemTooLarge, CanonSize}
    {
      hide Valid, Window, Advance;
      if n == 0 {
        kind := None;
        AdvanceNone();
        return 0, NoErr;
      }
      if n == 1 {
        v, err := ReadByte();
        if err == NoErr {
          assert old(Window())[..1] == [v];
          assert FromBigEndian([v]) == v;
        }
        return;
      }
      var b;
      b, err := ReadFull(n);
      if err != NoErr {
        return 0, err;
      }
      if b[0] == 0 {
        return 0, CanonSize;
      }
      v := FromBigEndian(b);
    }

    /** readUint for a size of n bytes, from 1 to 8, together with the test for sizes
        that belong in the short form. */
    method ReadSize(n: nat) returns (s: nat, err: StreamError)
      requires Valid() && 1 <= n <= 8
      modifies this`kind, this`stack, this`remaining, this`off
      ensures kind == None && Valid() && old(off) <= off
      ensures err == NoErr <==> ParseSize(old(Window()), n).Some?
      ensures err == NoErr ==> Consumed(n) && ParseSize(old(Window()), n) == Some(s)
      ensures err != NoErr ==> err in {ValueTooLarge, ElemTooLarge, CanonSize}
    {
      hide Valid, Window, Advance;
      s, err := ReadUint(n);
      ghost var w := old(Window());
      if n == 1 && w != [] {
        assert w[..1] == [w[0]] && FromBigEndian([w[0]]) == w[0];
      }
      if err == NoErr && s < 56 {
        err := CanonSize;
      }
    }

    /** readKind; n is the length of the header that was read. */
    method ReadKind() returns (k: Kind, sz: nat, err: StreamError, ghost n: nat)
      requires Valid()
      modifies this`kind, this`stack, this`remaining, this`off, this`byteval
      ensures Valid() && old(off) <= off
      ensures err == NoErr <==> AnyHead(old(Window())).Some?
      ensures err == NoErr ==> Consumed(n) && AnyHead(old(Window())) == Some(Head(k, n, sz))
      ensures err == NoErr && k == ByteKind ==> byteval == old(Window())[0]
      ensures err != EOL && (old(stack) == [] && old(Window()) == [] ==> err == EOF)
    {
      hide Valid, Advance, Window, ParseSize;
      var b;
      n := 0;
      b, err := ReadByte();
      if err != NoErr {
        if |stack| == 0 {
          err := EOF;
        }
        return ByteKind, 0, err, 0;
      }
      byteval := 0;
      n := 1;
      if b < 0x80 {
        byteval := b;
        return ByteKind, 0, NoErr, 1;
      } else if b < 0xB8 {
        return StringKind, b - 0x80, NoErr, 1;
      } else if b < 0xC0 {
        k := StringKind;
        n := (b - 0xB7) + 1;
        sz, err := ReadSize(b - 0xB7);
      } else if b < 0xF8 {
        return ListKind, b - 0xC0, NoErr, 1;
      } else {
        k := ListKind;
        n := (b - 0xF7) + 1;
        sz, err := ReadSize(b - 0xF7);
      }
      AdvanceTwice(old(stack), 1, n - 1);
    }

    /** Kind: cached information if there is any, else the next header, checked against
        the innermost list or, at top level, against the rest of the input. A header
        that fails is remembered with its error. */
    method Kind() returns (k: Kind, sz: nat, err: StreamError)
      requires Sound()
      modifies this
      ensures Sound() && ends == old(ends) && |stack| == |old(stack)| && old(off) <= off && old(Start()) <= Start()
      ensures old(kind).Some? ==> unchanged(this) && k == kind.value && sz == size && err == kinderr
      ensures err == EOL <==> old(AtEnd())
      ensures err == EOL ==> unchanged(`kind, `off, `remaining, `stack)
      ensures err == NoErr <==> !old(Stuck()) && StreamHead(old(Front())).Some?
      ensures err == NoErr ==>
                && kind == Some(k) && size == sz && kinderr == NoErr && Front() == old(Front()) && Start() == old(Start())
                && StreamHead(old(Front())) == Some(Head(k, off - Start(), sz))
                && stack == Advance(old(stack), off - old(off))
      ensures err != NoErr && err != EOL ==> kind == Some(k) && size == sz && kinderr == err
      ensures old(kind) == None && old(stack) == [] && old(Front()) == [] ==> err == EOF
    {
      hide AnyHead, Valid, Advance, StreamHead;
      Room();
      if kind.None? {
        kinderr := NoErr;
        if |stack| > 0 && stack[|stack| - 1].pos == stack[|stack| - 1].size {
          NoHead();
          return ByteKind, 0, EOL;
        }
        ghost var n, start := 0, off;
        k, sz, err, n := ReadKind();
        kind, size, kinderr, head := Some(k), sz, err, start;
        Room();
        FitsIn(old(Window()), Window(), k, n, sz, err);
        if kinderr == NoErr {
          if |stack| == 0 {
            if size > remaining {
              kinderr := ValueTooLarge;
            }
          } else if size > stack[|stack| - 1].size - stack[|stack| - 1].pos {
            kinderr := ElemTooLarge;
          }
        }
      } else {
        AdvanceNone();
      }
      return kind.value, size, kinderr;
    }

    lemma AdvanceNone()
      ensures Advance(stack, 0) == stack
    {
    }

    /** What a successful Kind leaves for the call that reads the value. */
    lemma CachedValue()
      requires Sound() && kind.Some? && kinderr == NoErr
      ensures Valid() && Start() <= off && StreamHead(Front()) == Some(Head(kind.value, off - Start(), size))
      ensures size <= |Window()| && Window() == Front()[off - Start()..]
      ensures Window()[..size] == Front()[off - Start()..off - Start() + size]
      ensures kind == Some(ByteKind) ==> byteval == Front()[0] && size == 0
    {
      Room();
      SliceTail(input, head, End(), off - head);
      SliceWithin(input, head, End(), off - head, off - head + size);
      SliceWithin(input, off, End(), 0, size);
      if kind == Some(ByteKind) {
        ByteHead(Front());
      }
    }

    lemma NoneSound()
      requires Valid() && kind == None && kinderr != EOL
      ensures Sound() && Front() == Window() && Start() == off
    {
    }

    lemma StartBefore()
      requires Sound()
      ensures Valid() && kinderr != EOL && Start() <= off
    {
    }

    /** The rest of the input moves along by itself. */
    twostate lemma TookIs(n: nat)
      requires old(Sound()) && Sound() && kind == None && ends == old(ends) && old(off) <= off
      requires off == old(Start()) + n && n <= |old(Front())| && stack == Advance(old(stack), off - old(off))
      ensures Took(n)
    {
      Room();
      SliceTail(input, old(Start()), End(), n);
      hide Nested, Advance, Cached;
    }

    twostate lemma TookMeans(n: nat)
      requires Took(n)
      ensures Sound() && kind == None && ends == old(ends) && old(off) <= off
      ensures off == old(Start()) + n && n <= |old(Front())| && stack == Advance(old(stack), off - old(off))
    {
    }

    /** Bytes */
    method Bytes() returns (b: seq<Byte>, err: StreamError)
      requires Sound()
      modifies this
      ensures Steady(err) && Tried(err, BytesAhead(old(Front())).Some?, Extent(old(Front())))
      ensures err == NoErr ==> BytesAhead(old(Front())) == Some(b)
      ensures !old(Stuck()) && ListAhead(old(Front())) ==>
                err == ExpectedString && kind.Some? && kinderr == NoErr && Front() == old(Front()) && Start() == old(Start())
    {
      hide Valid, Window, Cached, StreamHead, Advance, AtEnd, Sound, Front, Start, Took;
      ghost var w := Front();
      var k, sz;
      k, sz, err := Kind();
      if err != NoErr {
        return [], err;
      }
      CachedValue();
      AdvanceTwice(old(stack), off - old(off), sz);
      if k == ByteKind {
        kind := None;
        NoneSound();
        TookIs(Extent(w));
        assert w[..1] == [w[0]];
        return [byteval], NoErr;
      } else if k == StringKind {
        b, err := ReadFull(sz);
        NoneSound();
        TookIs(Extent(w));
        if sz == 1 && b[0] < 128 {
          return [], CanonSize;
        }
      } else {
        return [], ExpectedString;
      }
    }

    /** uint of at most `limit` bytes */
    method Uint(limit: nat) returns (v: nat, err: StreamError)
      requires Sound() && 1 <= limit <= 8
      modifies this
      ensures Steady(err) && Tried(err, UintAhead(old(Front()), limit).Some?, Extent(old(Front())))
      ensures err == NoErr ==> UintAhead(old(Front()), limit) == Some(v)
      ensures !old(Stuck()) && StreamHead(old(Front())).Some? && err != NoErr ==> err == UintError(old(Front()), limit)
    {
      hide Valid, Window, Cached, StreamHead, Advance, AtEnd, Sound, Front, Start, Took, UintAhead, BytesAhead, FromBigEndian;
      ghost var w := Front();
      UintByHead(w, limit);
      var k, sz;
      k, sz, err := Kind();
      if err != NoErr {
        return 0, err;
      }
      CachedValue();
      AdvanceTwice(old(stack), off - old(off), sz);
      if k == ByteKind {
        if byteval == 0 {
          return 0, CanonInt;
        }
        kind := None;
        NoneSound();
        TookIs(Extent(w));
        return byteval, NoErr;
      } else if k == StringKind {
        if sz > limit {
          return 0, UintOverflow;
        }
        v, err := ReadUint(sz);
        NoneSound();
        if err == NoErr {
          TookIs(Extent(w));
        }
        if err == CanonSize {
          return 0, CanonInt;
        }
        if err == NoErr && sz > 0 && v < 128 {
          SmallBigEndian(StreamContent(w));
          return 0, CanonSize;
        }
      } else {
        return 0, ExpectedString;
      }
    }

    /** List: a list whose header is read or cached is opened, and fits where it is. */
    method List() returns (sz: nat, err: StreamError)
      requires Sound()
      modifies this
      ensures Sound() && old(off) <= off && old(Start()) <= Start()
      ensures old(Stuck()) ==> unchanged(this) && err == kinderr
      ensures err == EOL <==> old(AtEnd())
      ensures err == EOL ==> unchanged(`kind, `off, `remaining, `stack, `ends)
      ensures err != NoErr ==> ends == old(ends) && |stack| == |old(stack)|
      ensures err == NoErr <==> !old(Stuck()) && ListAhead(old(Front()))
      ensures !old(Stuck()) && StreamHead(old(Front())).Some? && !ListAhead(old(Front())) ==>
                err == ExpectedList && kind.Some? && kinderr == NoErr && Front() == old(Front()) && Start() == old(Start())
      ensures err == NoErr ==>
                && kind == None && off == old(Start()) + Extent(old(Front())) - sz && sz < |old(Front())|
                && stack == Advance(old(stack), off - old(off)) + [ListPos(0, sz)] && ends == old(ends) + [off + sz]
                && Front() == StreamContent(old(Front())) && |Front()| == sz
    {
      hide Valid, Window, Cached, StreamHead, Advance, AtEnd, Sound, Front, Start;
      var k, s;
      k, s, err := Kind();
      if err != NoErr {
        return 0, err;
      }
      CachedValue();
      if k != ListKind {
        return 0, ExpectedList;
      }
      Open(s);
      NoneSound();
      return s, NoErr;
    }

    /** The list of n bytes that starts here is pushed. */
    method Open(n: nat)
      requires Valid() && n <= |Window()|
      modifies this`stack, this`ends, this`kind, this`size
      ensures Valid() && kind == None && stack == old(stack) + [ListPos(0, n)] && ends == old(ends) + [off + n]
      ensures Window() == old(Window())[..n]
    {
      Room();
      NestedPush(stack, ends, off, |input|, n);
      SliceWithin(input, off, End(), 0, n);
      hide Nested;
      stack := stack + [ListPos(0, n)];
      ends := ends + [off + n];
      kind := None;
      size := 0;
    }

    /** ListEnd: the enclosing list has now read the whole of this one. */
    method ListEnd() returns (err: StreamError)
      requires Sound()
      modifies this
      ensures Sound() && old(Start()) <= Start()
      ensures err == NoErr <==> old(stack) != [] && old(Window()) == []
      ensures err == NoErr ==>
                var outer := old(stack)[..|old(stack)| - 1];
                && kind == None && off == old(off)
                && stack == Advance(outer, old(stack)[|outer|].size) && ends == old(ends)[..|outer|]
      ensures err != NoErr ==> unchanged(this) && err == if stack == [] then NotInList else NotAtEOL
    {
      hide Innermost, Sound, Cached;
      StartBefore();
      if |stack| == 0 {
        return NotInList;
      }
      Room();
      var tos := stack[|stack| - 1];
      if tos.pos != tos.size {
        return NotAtEOL;
      }
      NestedPop(stack, ends, off, |input|);
      hide Nested;
      stack := stack[..|stack| - 1];
      ends := ends[..|stack|];
      if |stack| > 0 {
        var t := stack[|stack| - 1];
        stack := stack[|stack| - 1 := ListPos(t.pos + tos.size, t.size)];
      }
      kind := None;
      size := 0;
      NoneSound();
      return NoErr;
    }

    /** Raw: the header is put back in front of the content, so the result is exactly
        the bytes of the value, wherever its header was read. */
    method Raw() returns (buf: seq<Byte>, err: StreamError)
      requires Sound()
      modifies this
      ensures Steady(err) && Tried(err, StreamHead(old(Front())).Some?, Extent(old(Front())))
      ensures err == NoErr ==> buf == old(Front())[..Extent(old(Front()))]
    {
      hide Valid, Window, Cached, StreamHead, Header, Advance, AtEnd, Sound, Front, Start, Took;
      ghost var w := Front();
      var k, sz;
      k, sz, err := Kind();
      if err != NoErr {
        return [], err;
      }
      CachedValue();
      Room();
      StreamHeadCanonical(w);
      AdvanceTwice(old(stack), off - old(off), sz);
      if k == ByteKind {
        kind := None;
        NoneSound();
        TookIs(Extent(w));
        return [byteval], NoErr;
      }
      var content;
      content, err := ReadFull(sz);
      NoneSound();
      TookIs(Extent(w));
      var header;
      if k == StringKind {
        header := RlpEncoder.PutHead(0x80, 0xB7, sz);
      } else {
        header := RlpEncoder.PutHead(0xC0, 0xF7, sz);
      }
      buf := header + content;
    }

    /** decodeInterface: a list becomes a slice of items, anything else a byte string.
        It fails exactly where the parser does, and reads exactly what the parser takes. */
    method DecodeInterface() returns (x: Item, err: StreamError)
      requires Sound()
      modifies this
      ensures Onward(err) && Tried(err, Parse(old(Front())).Some?, Extent(old(Front())))
      ensures err == NoErr ==> Parse(old(Front())) == Some((x, Extent(old(Front()))))
      decreases |Front()|, 1
    {
      hide Valid, Window, Cached, ParseHead, StreamHead, ItemsAhead, BytesAhead, Extent, Parse, Advance, Sound, Front, Start, Took;
      ghost var w := Front();
      ParseByHead(w);
      var k, sz;
      k, sz, err := Kind();
      if err != NoErr {
        HeadlessFails(w);
        return Str([]), err;
      }
      label Headed:
      ghost var at := off;
      if k == ListKind {
        var xs;
        xs, err := DecodeListSlice();
        x := Lst(xs);
      } else {
        var b;
        b, err := Bytes();
        x := Str(b);
      }
      if err == NoErr {
        TookMeans@Headed(Extent(w));
        AdvanceTwice(old(stack), at - old(off), off - at);
        TookIs(Extent(w));
      }
    }

    lemma StartBound()
      requires Sound()
      ensures Start() <= off <= End() <= |input|
    {
    }

    lemma SameDepth()
      requires Sound()
      ensures |ends| == |stack|
    {
    }

    lemma NoCache()
      requires Sound()
      ensures kind == None ==> Window() == Front()
      ensures kind.Some? && kinderr == NoErr ==> Front() != []
    {
    }

    /** decodeListSlice */
    method DecodeListSlice() returns (xs: seq<Item>, err: StreamError)
      requires Sound()
      modifies this
      ensures Onward(err) && Tried(err, ItemsAhead(old(Front())).Some?, Extent(old(Front())))
      ensures err == NoErr ==> ItemsAhead(old(Front())) == Some(xs)
      decreases |Front()|, 0
    {
      hide ParseAll, Valid, Window, Advance, Sound, Front, Start, Took, Stuck, AtEnd, ListAhead, StreamContent, Extent, StreamHead;
      SameDepth();
      ghost var w := Front();
      var sz;
      sz, err := List();
      if err != NoErr {
        return [], err;
      }
      xs, err := ListItems(sz, old(stack), off - old(off), old(ends));
      if err == NoErr {
        TookIs(Extent(w));
      }
    }

    /** The elements of a list that was just opened, and its end. */
    method ListItems(sz: nat, ghost outer: seq<ListPos>, ghost m: nat, ghost outerEnds: seq<nat>)
      returns (xs: seq<Item>, err: StreamError)
      requires Sound() && kind == None && |Front()| == sz && |outer| == |outerEnds|
      requires stack == Advance(outer, m) + [ListPos(0, sz)] && ends == outerEnds + [off + sz]
      modifies this
      ensures Sound() && old(off) <= off && old(Start()) <= Start() && err != EOL
      ensures err == NoErr <==> ParseAll(old(Front())).Some?
      ensures err == NoErr ==>
                && ParseAll(old(Front())) == Some(xs) && kind == None && off == old(off) + sz
                && stack == Advance(outer, m + sz) && ends == outerEnds
      decreases sz, 4
    {
      hide Parse, ParseAll, Valid, Window, Cached, Advance, Took, Sound, Front, Start, Stuck, AtEnd;
      xs, err := Elements(sz);
      if err != NoErr {
        return [], err;
      }
      FromTook(sz);
      ListClosed(Advance(outer, m), sz, outerEnds, old(off) + sz);
      AdvanceTwice(outer, m, sz);
      err := ListEnd();
    }

    method Elements(sz: nat) returns (xs: seq<Item>, err: StreamError)
      requires Sound() && kind == None && |Front()| == sz && stack != []
      modifies this
      ensures Sound() && old(off) <= off && old(Start()) <= Start() && err != EOL
      ensures err == NoErr <==> ParseAll(old(Front())).Some?
      ensures err == NoErr ==> ParseAll(old(Front())) == Some(xs) && Took(sz)
      decreases sz, 3
    {
      hide Parse, ParseAll, Valid, Window, Cached, Advance;
      if sz == 0 {
        EmptyList(Front());
        AdvanceNone();
        return [], NoErr;
      }
      xs, err := DecodeSliceElems();
    }

    twostate lemma FromTook(n: nat)
      requires Took(n) && old(kind) == None && |old(Front())| == n
      ensures Valid() && Window() == [] && off == old(off) + n && ends == old(ends)
      ensures |stack| == |ends| && stack == Advance(old(stack), n)
    {
      Room();
    }

    /** n bytes of values were read since, whether the first header was cached or not. */
    twostate predicate Reached(n: nat)
      reads this
    {
      && old(Sound()) && Sound() && ends == old(ends) && old(off) <= off
      && Start() == old(Start()) + n && n <= |old(Front())| && Front() == old(Front())[n..]
      && stack == Advance(old(stack), off - old(off))
      && (if n == 0 then Stuck() == old(Stuck()) else kind == None && !old(Stuck()))
    }

    /** decodeSliceElems: elements up to the end of the innermost list; at top level the
        input runs out first. */
    method DecodeSliceElems() returns (xs: seq<Item>, err: StreamError)
      requires Sound()
      modifies this
      ensures Onward(err) && err != EOL
      ensures err == NoErr <==> old(stack) != [] && !old(Stuck()) && ParseAll(old(Front())).Some?
      ensures err == NoErr ==> ParseAll(old(Front())) == Some(xs) && Took(|old(Front())|)
      decreases |Front()|, 2
    {
      hide Valid, Window, Cached, Advance, Parse, ParseAll, Parsed;
      xs := [];
      ghost var w := Front();
      ghost var n: nat := 0;
      AdvanceNone();
      ParsedStart(w);
      while true
        invariant Reached(n) && Parsed(w, Front(), xs) && (stack == [] <==> old(stack) == [])
        invariant old(Stuck()) ==> unchanged(this)
        decreases |Front()|
      {
        ghost var rest, at := Front(), off;
        ParsedNext(w, rest, xs);
        NoCache();
        ghost var stuck, ended := Stuck(), AtEnd();
        var x;
        x, err := DecodeInterface();
        if err == EOL {
          break;
        } else if err != NoErr {
          assert stuck || Parse(rest).None?;
          assert rest == [] && !stuck ==> old(stack) == [];
          return [], err;
        }
        xs := xs + [x];
        AdvanceTwice(old(stack), at - old(off), off - at);
        n := n + Parse(rest).value.1;
      }
      err := NoErr;
    }

    /** The failed header that stays, if there is one. */
    ghost function Stays(): (e: Option<StreamError>)
      reads `kind, `kinderr
    {
      if Stuck() then Some(kinderr) else None
    }

    /** One call of a run, whatever the state. */
    method Answer(call: Call) returns (v: Value, err: StreamError)
      requires Sound()
      modifies this
      ensures Sound() && old(Start()) <= Start() <= |input|
      ensures err == NoErr ==> Means(call, v, input[old(Start())..Start()])
      ensures call.CallKind? && err != NoErr && err != EOL ==> Stays() == Some(err)
      ensures old(Stuck()) && !call.CallListEnd? ==> unchanged(this) && err == kinderr
    {
      hide Valid, Cached, StreamHead, BytesAhead, UintAhead, ItemsAhead, ListAhead, Extent, Parse, ParseAll;
      hide Advance, Sound, Front, Took;
      v := Nothing;
      StartBound();
      match call {
        case CallKind =>
          var k, sz;
          k, sz, err := Kind();
        case CallList =>
          v, err := AnswerList();
        case CallListEnd =>
          err := ListEnd();
        case CallDecode =>
          v, err := AnswerDecode(call);
        case CallDecodeList =>
          v, err := AnswerDecode(call);
        case CallDecodeElems =>
          v, err := AnswerElems();
        case _ =>
          v, err := AnswerString(call);
      }
      StartBound();
    }

    /** Bytes, Raw and Uint. */
    method AnswerString(call: Call) returns (v: Value, err: StreamError)
      requires Sound() && (call.CallBytes? || call.CallRaw? || call.CallUint?)
      modifies this
      ensures Onward(err) && Start() <= |input|
      ensures err == NoErr ==> Means(call, v, input[old(Start())..Start()])
    {
      hide Valid, Cached, StreamHead, BytesAhead, UintAhead, ListAhead, Extent, Advance, Sound, Front, Took;
      ghost var w := Front();
      if call.CallBytes? {
        var b;
        b, err := Bytes();
        v := Data(b);
        if err == NoErr {
          BytesEncode(w);
        }
      } else if call.CallRaw? {
        var b;
        b, err := Raw();
        v := Data(b);
      } else {
        var n;
        n, err := Uint(8);
        v := Number(n);
        if err == NoErr {
          UintIff(w, 8, n);
        }
      }
      StartBound();
      if err == NoErr {
        TookFrom(Extent(w));
      }
    }

    method AnswerList() returns (v: Value, err: StreamError)
      requires Sound()
      modifies this
      ensures Onward(err) && Start() <= |input|
      ensures err == NoErr ==> Means(CallList, v, input[old(Start())..Start()])
    {
      hide Valid, Cached, StreamHead, Advance, Sound, Front, StreamContent, AtEnd, Header;
      ghost var w := Front();
      var sz;
      sz, err := List();
      v := Number(sz);
      StartBound();
      if err == NoErr {
        StreamHeadCanonical(w);
        Headed(Extent(w) - sz);
      }
    }

    /** One value, or one that has to be a list. */
    method AnswerDecode(call: Call) returns (v: Value, err: StreamError)
      requires Sound() && (call.CallDecode? || call.CallDecodeList?)
      modifies this
      ensures Onward(err) && Start() <= |input|
      ensures err == NoErr ==> Means(call, v, input[old(Start())..Start()])
    {
      hide Valid, Cached, StreamHead, ItemsAhead, ListAhead, Extent, Parse, Encode, Advance, Sound, Front, Took;
      ghost var w := Front();
      if call.CallDecode? {
        var x;
        x, err := DecodeInterface();
        v := Decoded(x);
      } else {
        var xs;
        xs, err := DecodeListSlice();
        v := Decoded(Lst(xs));
        ItemsDecoded(w);
      }
      StartBound();
      if err == NoErr {
        EncodeParse(w);
        TookFrom(Extent(w));
      }
    }

    method AnswerElems() returns (v: Value, err: StreamError)
      requires Sound()
      modifies this
      ensures Onward(err) && Start() <= |input|
      ensures err == NoErr ==> Means(CallDecodeElems, v, input[old(Start())..Start()])
    {
      hide Valid, Cached, ParseAll, EncodeAll, Advance, Sound, Front, Took;
      ghost var w := Front();
      var xs;
      xs, err := DecodeSliceElems();
      v := Items(xs);
      StartBound();
      if err == NoErr {
        EncodeParseAll(w);
        TookFrom(|w|);
        assert w[..|w|] == w;
      }
    }

    twostate lemma Headed(n: nat)
      requires old(Sound()) && Sound() && n <= |old(Front())| && Start() == old(Start()) + n
      ensures old(Front())[..n] == input[old(Start())..Start()]
    {
      Room();
      SliceWithin(input, old(Start()), old(End()), 0, n);
    }

    lemma KeepsLimits()
      requires Sound()
      ensures WithinLimits(stack, remaining)
    {
      NestedWithinLimits(stack, ends, off, |input|);
    }

    twostate lemma TookFrom(n: nat)
      requires Took(n)
      ensures Start() == old(Start()) + n && old(Front())[..n] == input[old(Start())..Start()]
    {
      Room();
      SliceWithin(input, old(Start()), old(End()), 0, n);
    }
  }

  // ----- Any sequence of calls

  /** The unread bytes of open list i, its own lists counted by what is unread of them. */
  function Unread(stack: seq<ListPos>, i: nat): (n: int)
    requires i < |stack|
    decreases |stack| - i
  {
    var own := stack[i].size - stack[i].pos;
    if i == |stack| - 1 then own else own - stack[i + 1].size + Unread(stack, i + 1)
  }

  /** No list was read past its end, and every open list fits in what is left of its
      parent and of the input. */
  ghost predicate WithinLimits(stack: seq<ListPos>, left: int)
  {
    && (forall i :: 0 <= i < |stack| ==> stack[i].pos <= stack[i].size && 0 <= Unread(stack, i) <= left)
    && (forall i :: 0 <= i < |stack| - 1 ==> stack[i + 1].size <= stack[i].size - stack[i].pos)
  }

  lemma {:induction false} UnreadIs(stack: seq<ListPos>, ends: seq<nat>, off: nat, limit: nat, i: nat)
    requires Nested(stack, ends, off, limit) && i < |stack|
    ensures Unread(stack, i) == ends[i] - off && ends[i] >= off
    decreases |stack| - i
  {
    if i < |stack| - 1 {
      UnreadIs(stack, ends, off, limit, i + 1);
      assert Encloses(stack, ends, i);
    }
  }

  lemma NestedWithinLimits(stack: seq<ListPos>, ends: seq<nat>, off: nat, limit: nat)
    requires Nested(stack, ends, off, limit)
    ensures WithinLimits(stack, limit - off)
  {
    forall i | 0 <= i < |stack|
      ensures 0 <= Unread(stack, i) <= limit - off
    {
      UnreadIs(stack, ends, off, limit, i);
    }
    forall i | 0 <= i < |stack| - 1
      ensures stack[i + 1].size <= stack[i].size - stack[i].pos
    {
      assert Encloses(stack, ends, i);
    }
  }

  datatype Call =
    | CallKind | CallBytes | CallUint | CallRaw | CallList | CallListEnd
    | CallDecode | CallDecodeList | CallDecodeElems

  /** What a call returns. */
  datatype Value = Nothing | Data(data: seq<Byte>) | Number(number: nat) | Decoded(item: Item) | Items(items: seq<Item>)

  /** The bytes consumed are the encoding of what a call that succeeds returns. */
  ghost predicate Means(call: Call, v: Value, b: seq<Byte>)
  {
    match call
    case CallKind => true
    case CallListEnd => true
    case CallBytes => v.Data? && EncodeStr(v.data) == b
    case CallRaw => v == Data(b)
    case CallUint => v.Number? && v.number < LIMIT && RlpRaw.AppendUint64([], v.number) == b
    case CallList => v.Number? && Header(0xC0, 0xF7, v.number) == b
    case CallDecode => v.Decoded? && Encode(v.item) == b
    case CallDecodeList => v.Decoded? && v.item.Lst? && Encode(v.item) == b
    case CallDecodeElems => v.Items? && EncodeAll(v.items) == b
  }

  lemma ItemsDecoded(w: seq<Byte>)
    ensures ItemsAhead(w).Some? ==> Parse(w) == Some((Lst(ItemsAhead(w).value), Extent(w)))
  {
    ParseByHead(w);
    hide Parse, ParseAll, StreamHead;
  }

  /** What a call said, where the next value started before and after it, and the state
      that it left behind. */
  datatype Reply = Reply(call: Call, err: StreamError, value: Value, from: nat, to: nat,
                         stack: seq<ListPos>, left: nat, stuck: Option<StreamError>)

  /** A reply in itself: the limits hold, what was consumed is what the value encodes to,
      and a header that fails is remembered. */
  ghost predicate Right(input: seq<Byte>, r: Reply)
  {
    && WithinLimits(r.stack, r.left) && r.from <= r.to <= |input|
    && (r.err == NoErr ==> Means(r.call, r.value, input[r.from..r.to]))
    && (r.call.CallKind? && r.err != NoErr && r.err != EOL ==> r.stuck == Some(r.err))
  }

  /** The next reply goes on where the last one stopped, and repeats its failure unless
      it ends the list. */
  predicate Follows(r: Reply, s: Reply)
  {
    && r.to == s.from
    && (r.stuck.Some? && !s.call.CallListEnd? ==>
          s.err == r.stuck.value && s.to == r.to && s.stack == r.stack && s.stuck == r.stuck)
  }

  /** Each call has its reply, each reply is right and follows the last one. */
  ghost predicate Answered(b: seq<Byte>, calls: seq<Call>, results: seq<(Value, StreamError)>, replies: seq<Reply>)
  {
    && |results| == |replies| <= |calls|
    && (forall i :: 0 <= i < |replies| ==>
          replies[i].call == calls[i] && results[i] == (replies[i].value, replies[i].err) && Right(b, replies[i]))
    && (forall i :: 0 <= i < |replies| - 1 ==> Follows(replies[i], replies[i + 1]))
    && (replies != [] ==> replies[0].from == 0)
  }

  lemma AnsweredNext(b: seq<Byte>, calls: seq<Call>, results: seq<(Value, StreamError)>, replies: seq<Reply>, r: Reply)
    requires Answered(b, calls, results, replies) && |replies| < |calls|
    requires r.call == calls[|replies|] && Right(b, r)
    requires if replies == [] then r.from == 0 else Follows(replies[|replies| - 1], r)
    ensures Answered(b, calls, results + [(r.value, r.err)], replies + [r])
  {
    hide Right, Follows;
  }

  /** Every run of calls from the start of the input, failing ones included. */
  method Drive(b: seq<Byte>, calls: seq<Call>) returns (results: seq<(Value, StreamError)>, ghost replies: seq<Reply>)
    requires |b| < LIMIT
    ensures |replies| == |calls| && Answered(b, calls, results, replies)
    ensures |results| == |calls|
    ensures forall i :: 0 <= i < |calls| - 1 && FailsAt(calls, results, i) && !calls[i + 1].CallListEnd? ==>
                          results[i + 1].1 == results[i].1
  {
    var s := new Stream(b);
    hide Answered, Right, Follows, Stream.Sound;
    results, replies := [], [];
    assert Answered(b, calls, results, replies) by { NoneAnswered(b, calls); }
    for i := 0 to |calls|
      invariant s.Sound() && s.input == b && |replies| == i && Answered(b, calls, results, replies)
      invariant if i == 0 then s.Start() == 0 else LeftAt(s, replies[i - 1])
    {
      ghost var last := if i > 0 then Some(replies[i - 1]) else None;
      var v, err;
      ghost var r;
      v, err, r := Ask(s, calls[i], last);
      AnsweredNext(b, calls, results, replies, r);
      results, replies := results + [(v, err)], replies + [r];
    }
    FailuresRepeat(b, calls, results, replies);
  }

  /** A header could not be read. */
  predicate FailsAt(calls: seq<Call>, results: seq<(Value, StreamError)>, i: nat)
    requires i < |calls| == |results|
  {
    calls[i].CallKind? && results[i].1 != NoErr && results[i].1 != EOL
  }

  lemma NoneAnswered(b: seq<Byte>, calls: seq<Call>)
    ensures Answered(b, calls, [], [])
  {
  }

  lemma FailuresRepeat(b: seq<Byte>, calls: seq<Call>, results: seq<(Value, StreamError)>, replies: seq<Reply>)
    requires Answered(b, calls, results, replies) && |replies| == |calls|
    ensures |results| == |calls|
    ensures forall i :: 0 <= i < |calls| - 1 && FailsAt(calls, results, i) && !calls[i + 1].CallListEnd? ==>
                          results[i + 1].1 == results[i].1
  {
    hide WithinLimits, Means;
    forall i | 0 <= i < |calls| - 1 && FailsAt(calls, results, i) && !calls[i + 1].CallListEnd?
      ensures results[i + 1].1 == results[i].1
    {
      assert Right(b, replies[i]) && Follows(replies[i], replies[i + 1]);
    }
  }

  /** The state that a reply left behind. */
  ghost predicate LeftAt(s: Stream, r: Reply)
    reads s
  {
    r.to == s.Start() && r.stack == s.stack && r.stuck == s.Stays()
  }

  method Ask(s: Stream, call: Call, ghost last: Option<Reply>) returns (v: Value, err: StreamError, ghost r: Reply)
    requires s.Sound() && (last.Some? ==> LeftAt(s, last.value))
    modifies s
    ensures s.Sound() && r.call == call && r.value == v && r.err == err && r.from == old(s.Start())
    ensures Right(s.input, r) && LeftAt(s, r) && (last.Some? ==> Follows(last.value, r))
  {
    ghost var start := s.Start();
    v, err := s.Answer(call);
    s.KeepsLimits();
    hide Stream.Sound, WithinLimits;
    r := Reply(call, err, v, start, s.Start(), s.stack, s.remaining, s.Stays());
  }

  /** The items in w are those of xs followed by those in rest. */
  ghost predicate Parsed(w: seq<Byte>, rest: seq<Byte>, xs: seq<Item>)
  {
    if ParseAll(rest).Some? then ParseAll(w) == Some(xs + ParseAll(rest).value) else ParseAll(w) == None
  }

  lemma ParsedStart(w: seq<Byte>)
    ensures Parsed(w, w, [])
  {
    hide ParseAll;
    assert ParseAll(w).Some? ==> [] + ParseAll(w).value == ParseAll(w).value;
  }

  lemma ParsedNext(w: seq<Byte>, rest: seq<Byte>, xs: seq<Item>)
    requires Parsed(w, rest, xs)
    ensures rest == [] ==> ParseAll(w) == Some(xs)
    ensures rest != [] && Parse(rest).None? ==> ParseAll(w) == None
    ensures Parse(rest).Some? ==> rest != [] && Parsed(w, rest[Parse(rest).value.1..], xs + [Parse(rest).value.0])
  {
    hide Parse;
    if rest == [] {
      assert xs + [] == xs;
    } else if Parse(rest).Some? && ParseAll(rest).Some? {
      var p := Parse(rest).value;
      assert ParseAll(rest).value == [p.0] + ParseAll(rest[p.1..]).value;
      assert xs + ([p.0] + ParseAll(rest[p.1..]).value) == xs + [p.0] + ParseAll(rest[p.1..]).value;
    }
  }

  lemma StreamHeadCanonical(w: seq<Byte>)
    requires StreamHead(w).Some?
    ensures var Head(k, tag, size) := StreamHead(w).value;
            && (k == ByteKind ==> tag == 1 && size == 0 && w[..1] == [w[0]])
            && (k == StringKind ==> w[..tag] == Header(0x80, 0xB7, size))
            && (k == ListKind ==> w[..tag] == Header(0xC0, 0xF7, size))
  {
    var t := w[0];
    if t >= 0xF8 {
      LongHeader(w, 0xF7, t - 0xF7);
    } else if 0xB8 <= t < 0xC0 {
      LongHeader(w, 0xB7, t - 0xB7);
    } else if t >= 0x80 {
      assert w[..1] == [t];
    }
    hide Header, ParseSize;
  }

  lemma LongHeader(w: seq<Byte>, large: Byte, n: nat)
    requires 1 <= n <= 8 && large + n < 256 && w != [] && w[0] == large + n && ParseSize(w[1..], n).Some?
    ensures n + 1 <= |w|
    ensures forall small: Byte :: small <= 200 && large <= 247 ==> w[..n + 1] == Header(small, large, ParseSize(w[1..], n).value)
  {
    var size := ParseSize(w[1..], n).value;
    SizeCanonical(w[1..], n);
    assert w[..n + 1] == [w[0]] + w[1..][..n];
    assert size >= 56;
    hide BigEndian, FromBigEndian;
  }

  /** DecodeBytes: the decoder undoes the encoder, and accepts nothing else. */
  method DecodeBytes(b: seq<Byte>) returns (x: Item, err: StreamError)
    requires |b| < LIMIT
    ensures err == NoErr ==> b == Encode(x)
    ensures forall y :: b == Encode(y) ==> err == NoErr && x == y
    ensures forall y, n: nat :: n < |b| && b[..n] == Encode(y) ==> err == MoreThanOneValue
  {
    hide Encode, Parse;
    var s := new Stream(b);
    x, err := s.DecodeInterface();
    if err == NoErr && |s.input| - s.off > 0 {
      err := MoreThanOneValue;
    }
    forall y
      ensures b == Encode(y) ==> err == NoErr && x == y
      ensures err == NoErr && x == y ==> b == Encode(y)
    {
      DecodeIffEncode(b, y);
    }
    forall y, n: nat | n < |b| && b[..n] == Encode(y)
      ensures err == MoreThanOneValue
    {
      ParseEncode(y, b[n..]);
      assert b == Encode(y) + b[n..];
    }
  }

  /** Encoding and decoding with the two machines is the identity. */
  method RoundTrip(x: Item) returns (y: Item, err: StreamError)
    requires |Encode(x)| < LIMIT
    ensures err == NoErr && y == x
  {
    var bytes := RlpEncoder.EncodeToBytes(x);
    y, err := DecodeBytes(bytes[..]);
  }
}
