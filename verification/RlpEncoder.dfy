/** The encoder buffer of encode.go. String data is written straight away; the header
    of a list is only known when the list ends, so headers go to a side table and are
    merged into the output at the end. */
module RlpEncoder {
  import opened Wrappers
  import opened Pieces
  import opened RlpFormat
  import opened RlpRaw

  /** listhead: where the header goes and what it says. */
  datatype ListHead = ListHead(offset: nat, size: nat)

  // ----- What the buffer holds for an item

  /** Everything except list headers. */
  function Data(x: Item): (d: seq<Byte>)
    decreases x, 0
  {
    match x
    case Str(b) => EncodeStr(b)
    case Lst(xs) => DataAll(xs)
  }

  function DataAll(xs: seq<Item>): (d: seq<Byte>)
    decreases xs
  {
    if xs == [] then [] else Data(xs[0]) + DataAll(xs[1..])
  }

  /** The list headers of an item whose data starts at `base`, outer before inner. */
  function ListHeads(x: Item, base: nat): (hs: seq<ListHead>)
    decreases x, 0
  {
    match x
    case Str(_) => []
    case Lst(xs) => [ListHead(base, |EncodeAll(xs)|)] + ListHeadsAll(xs, base)
  }

  function ListHeadsAll(xs: seq<Item>, base: nat): (hs: seq<ListHead>)
    decreases xs
  {
    if xs == [] then [] else ListHeads(xs[0], base) + ListHeadsAll(xs[1..], base + |Data(xs[0])|)
  }

  lemma {:induction false} DataFits(x: Item)
    ensures |Data(x)| <= |Encode(x)|
    decreases x, 0
  {
    if x.Lst? {
      DataFitsAll(x.items);
    }
  }

  lemma {:induction false} DataFitsAll(xs: seq<Item>)
    ensures |DataAll(xs)| <= |EncodeAll(xs)|
    decreases xs
  {
    if xs != [] {
      DataFits(xs[0]);
      DataFitsAll(xs[1..]);
    }
  }

  /** The bytes that list headers will add. */
  function Overhead(x: Item): (n: nat)
  {
    DataFits(x);
    |Encode(x)| - |Data(x)|
  }

  function OverheadAll(xs: seq<Item>): (n: nat)
  {
    DataFitsAll(xs);
    |EncodeAll(xs)| - |DataAll(xs)|
  }

  /** The element loop, one element on. */
  lemma NextElement(xs: seq<Item>, i: nat, base: nat)
    requires i < |xs|
    ensures DataAll(xs[i..]) == Data(xs[i]) + DataAll(xs[i + 1..])
    ensures ListHeadsAll(xs[i..], base) == ListHeads(xs[i], base) + ListHeadsAll(xs[i + 1..], base + |Data(xs[i])|)
    ensures OverheadAll(xs[i..]) == Overhead(xs[i]) + OverheadAll(xs[i + 1..])
    ensures |Encode(xs[i])| <= |EncodeAll(xs[i..])|
    ensures |EncodeAll(xs[i + 1..])| <= |EncodeAll(xs[i..])|
  {
    assert xs[i..][1..] == xs[i + 1..];
  }

  /** The data from `from` on with the headers put in at their offsets. */
  function Merge(str: seq<Byte>, heads: seq<ListHead>, from: nat): (out: seq<Byte>)
    requires Ordered(heads, from, |str|)
    decreases |heads|
  {
    if heads == [] then str[from..]
    else
      OrderedBounds(heads[1..], heads[0].offset, |str|);
      str[from..heads[0].offset] + ListHeader(heads[0].size) + Merge(str, heads[1..], heads[0].offset)
  }

  /** Header offsets lie in the data and never go back. */
  predicate Ordered(heads: seq<ListHead>, from: nat, to: nat)
    decreases |heads|
  {
    if heads == [] then from <= to
    else from <= heads[0].offset && Ordered(heads[1..], heads[0].offset, to)
  }

  lemma {:induction false} OrderedBounds(heads: seq<ListHead>, from: nat, to: nat)
    requires Ordered(heads, from, to)
    ensures from <= to
    decreases |heads|
  {
    if heads != [] {
      OrderedBounds(heads[1..], heads[0].offset, to);
    }
  }

  lemma {:induction false} OrderedConcat(hs: seq<ListHead>, ks: seq<ListHead>, from: nat, mid: nat, to: nat)
    requires Ordered(hs, from, mid) && Ordered(ks, mid, to)
    ensures Ordered(hs + ks, from, to)
    decreases |hs|
  {
    if hs == [] {
      assert hs + ks == ks;
      OrderedWiden(ks, mid, from, to);
    } else {
      assert (hs + ks)[1..] == hs[1..] + ks;
      OrderedConcat(hs[1..], ks, hs[0].offset, mid, to);
    }
  }

  lemma OrderedWiden(hs: seq<ListHead>, from: nat, lower: nat, to: nat)
    requires Ordered(hs, from, to) && lower <= from
    ensures Ordered(hs, lower, to)
  {
  }

  lemma {:induction false} HeadsOrdered(x: Item, base: nat)
    ensures Ordered(ListHeads(x, base), base, base + |Data(x)|)
    decreases x, 0
  {
    if x.Lst? {
      HeadsOrderedAll(x.items, base);
      var hs := ListHeads(x, base);
      assert hs[1..] == ListHeadsAll(x.items, base);
    }
  }

  lemma {:induction false} HeadsOrderedAll(xs: seq<Item>, base: nat)
    ensures Ordered(ListHeadsAll(xs, base), base, base + |DataAll(xs)|)
    decreases xs
  {
    if xs != [] {
      var mid := base + |Data(xs[0])|;
      HeadsOrdered(xs[0], base);
      HeadsOrderedAll(xs[1..], mid);
      OrderedConcat(ListHeads(xs[0], base), ListHeadsAll(xs[1..], mid), base, mid, base + |DataAll(xs)|);
    }
  }

  lemma {:induction false} HeadSizes(x: Item, base: nat)
    ensures forall i :: 0 <= i < |ListHeads(x, base)| ==> ListHeads(x, base)[i].size <= |Encode(x)|
    decreases x, 0
  {
    if x.Lst? {
      HeadSizesAll(x.items, base);
    }
  }

  lemma {:induction false} HeadSizesAll(xs: seq<Item>, base: nat)
    ensures forall i :: 0 <= i < |ListHeadsAll(xs, base)| ==> ListHeadsAll(xs, base)[i].size <= |EncodeAll(xs)|
    decreases xs
  {
    if xs != [] {
      HeadSizes(xs[0], base);
      HeadSizesAll(xs[1..], base + |Data(xs[0])|);
    }
  }

  // ----- The merged buffer is the plain recursive encoding

  /** Merging over data that comes before the first header and after the last one. */
  lemma {:induction false} MergeItem(pre: seq<Byte>, x: Item, post: seq<Byte>, hs: seq<ListHead>)
    requires Ordered(hs, |pre| + |Data(x)|, |pre| + |Data(x)| + |post|)
    ensures Ordered(ListHeads(x, |pre|) + hs, |pre|, |pre| + |Data(x)| + |post|)
    ensures var str := pre + Data(x) + post;
            Merge(str, ListHeads(x, |pre|) + hs, |pre|) == Encode(x) + Merge(str, hs, |pre| + |Data(x)|)
    decreases x, 0
  {
    hide Merge, Ordered, EncodeStr, EncodeAll, DataAll, ListHeadsAll, ListHeader;
    var str, base, mid := pre + Data(x) + post, |pre|, |pre| + |Data(x)|;
    HeadsOrdered(x, base);
    OrderedConcat(ListHeads(x, base), hs, base, mid, |str|);
    match x
    case Str(b) =>
      assert ListHeads(x, base) + hs == hs;
      MergeData(str, hs, base, mid);
      assert str[base..mid] == Data(x);
    case Lst(xs) =>
      MergeItems(pre, xs, post, hs);
      var all, h := ListHeads(x, base) + hs, ListHeader(|EncodeAll(xs)|);
      assert all[1..] == ListHeadsAll(xs, base) + hs;
      MergeStep(str, all, base);
      assert str[base..base] == [];
      Associate(h, EncodeAll(xs), Merge(str, hs, mid));
  }

  /** Merge, one header at a time. */
  lemma MergeStep(str: seq<Byte>, hs: seq<ListHead>, from: nat)
    requires hs != [] && Ordered(hs, from, |str|)
    ensures from <= hs[0].offset <= |str| && Ordered(hs[1..], hs[0].offset, |str|)
    ensures Merge(str, hs, from)
         == str[from..hs[0].offset] + (ListHeader(hs[0].size) + Merge(str, hs[1..], hs[0].offset))
  {
    OrderedBounds(hs[1..], hs[0].offset, |str|);
    Associate(str[from..hs[0].offset], ListHeader(hs[0].size), Merge(str, hs[1..], hs[0].offset));
  }

  lemma {:induction false} MergeItems(pre: seq<Byte>, xs: seq<Item>, post: seq<Byte>, hs: seq<ListHead>)
    requires Ordered(hs, |pre| + |DataAll(xs)|, |pre| + |DataAll(xs)| + |post|)
    ensures Ordered(ListHeadsAll(xs, |pre|) + hs, |pre|, |pre| + |DataAll(xs)| + |post|)
    ensures var str := pre + DataAll(xs) + post;
            Merge(str, ListHeadsAll(xs, |pre|) + hs, |pre|) == EncodeAll(xs) + Merge(str, hs, |pre| + |DataAll(xs)|)
    decreases xs
  {
    hide Merge, Encode, Data, ListHeads, Ordered;
    var str := pre + DataAll(xs) + post;
    if xs == [] {
      assert ListHeadsAll(xs, |pre|) + hs == hs;
    } else {
      var d := Data(xs[0]);
      var pre', rest := pre + d, DataAll(xs[1..]);
      assert str == pre' + rest + post;
      assert str == pre + d + (rest + post);
      var ks := ListHeadsAll(xs[1..], |pre'|) + hs;
      MergeItems(pre', xs[1..], post, hs);
      MergeItem(pre, xs[0], rest + post, ks);
      assert ListHeadsAll(xs, |pre|) + hs == ListHeads(xs[0], |pre|) + ks;
      Associate(Encode(xs[0]), EncodeAll(xs[1..]), Merge(str, hs, |pre| + |DataAll(xs)|));
    }
  }

  lemma Associate(a: seq<Byte>, b: seq<Byte>, c: seq<Byte>)
    ensures a + b + c == a + (b + c)
  {
  }

  /** Data in front of the next header is copied through. */
  lemma MergeData(str: seq<Byte>, hs: seq<ListHead>, from: nat, mid: nat)
    requires from <= mid <= |str| && Ordered(hs, mid, |str|)
    ensures Ordered(hs, from, |str|) && Merge(str, hs, from) == str[from..mid] + Merge(str, hs, mid)
  {
    OrderedWiden(hs, mid, from, |str|);
    if hs == [] {
      assert str[from..] == str[from..mid] + str[mid..];
    } else {
      MergeStep(str, hs, from);
      MergeStep(str, hs, mid);
      hide Merge, Ordered, ListHeader;
      var o := hs[0].offset;
      var tail := ListHeader(hs[0].size) + Merge(str, hs[1..], o);
      assert str[from..o] == str[from..mid] + str[mid..o];
      Associate(str[from..mid], str[mid..o], tail);
    }
  }

  /** A whole buffer holding one item merges to its encoding. */
  lemma MergeEncodes(x: Item)
    ensures Ordered(ListHeads(x, 0), 0, |Data(x)|)
    ensures Merge(Data(x), ListHeads(x, 0), 0) == Encode(x)
  {
    MergeItem([], x, [], []);
    hide Merge, Encode, Data, ListHeads, Ordered;
    assert [] + Data(x) + [] == Data(x);
    assert ListHeads(x, 0) + [] == ListHeads(x, 0);
    MergeNothing(Data(x));
  }

  lemma MergeNothing(str: seq<Byte>)
    ensures Ordered([], |str|, |str|) && Merge(str, [], |str|) == []
  {
  }

  // ----- The buffer

  /** intsize: the loop shifts i right by a byte at a time. */
  method IntSize(i0: nat) returns (size: nat)
    ensures size == if i0 == 0 then 1 else |BigEndian(i0)|
  {
    var i := i0;
    size := 1;
    while true
      invariant size >= 1 && (if i0 == 0 then i == 0 && size == 1 else i > 0 && size - 1 + |BigEndian(i)| == |BigEndian(i0)|)
      decreases i
    {
      i := i / 256;
      if i == 0 {
        return;
      }
      size := size + 1;
    }
  }

  /** puthead, as the bytes it writes at the front of its buffer. */
  method PutHead(smallTag: Byte, largeTag: Byte, size: nat) returns (h: seq<Byte>)
    requires smallTag <= 200 && largeTag <= 247 && size < LIMIT
    ensures h == Header(smallTag, largeTag, size)
  {
    if size < 56 {
      h := [smallTag + size];
    } else {
      PutIntIsBigEndian(size);
      SizeLength(size);
      var b := PutInt(size);
      h := [largeTag + |b|] + b;
    }
  }

  /** copy(out[pos:], data) */
  method CopyInto(out: array<Byte>, pos: nat, data: seq<Byte>)
    requires pos + |data| <= out.Length
    modifies out
    ensures out[..pos + |data|] == old(out[..pos]) + data
  {
    forall k | 0 <= k < |data| {
      out[pos + k] := data[k];
    }
    assert out[..pos + |data|][..pos] == old(out[..pos]);
    assert out[..pos + |data|][pos..] == data;
  }

  /** encbuf */
  class EncBuf {
    var str: seq<Byte>
    var lheads: seq<ListHead>
    var lhsize: nat

    constructor ()
      ensures str == [] && lheads == [] && lhsize == 0
    {
      str, lheads, lhsize := [], [], 0;
    }

    /** size: the length of the finished output. */
    function Size(): (n: nat)
      reads this
    {
      |str| + lhsize
    }

    /** The output so far is complete and has the length the counters say. */
    ghost predicate Complete()
      reads this
    {
      && Ordered(lheads, 0, |str|) && |Merge(str, lheads, 0)| == Size()
      && forall i :: 0 <= i < |lheads| ==> lheads[i].size <= Size()
    }

    method EncodeString(b: seq<Byte>)
      requires |b| < LIMIT
      modifies this`str
      ensures str == old(str) + EncodeStr(b)
    {
      if |b| == 1 && b[0] <= 0x7F {
        str := str + [b[0]];
      } else {
        var h := PutHead(0x80, 0xB7, |b|);
        str := str + h;
        str := str + b;
      }
    }

    /** list: the offset is final, the size field holds the header bytes so far. */
    method List() returns (lh: nat)
      modifies this`lheads
      ensures lh == |old(lheads)| && lheads == old(lheads) + [ListHead(|str|, lhsize)]
    {
      lh := |lheads|;
      lheads := lheads + [ListHead(|str|, lhsize)];
    }

    /** listEnd: what was written since list() is the payload. */
    method ListEnd(lh: nat)
      requires lh < |lheads|
      requires lheads[lh].offset + lheads[lh].size <= Size()
      modifies this`lheads, this`lhsize
      ensures var payload := old(Size()) - old(lheads)[lh].offset - old(lheads)[lh].size;
              && lheads == old(lheads)[lh := ListHead(old(lheads)[lh].offset, payload)]
              && lhsize == old(lhsize) + |ListHeader(payload)|
    {
      var size := Size() - lheads[lh].offset - lheads[lh].size;
      lheads := lheads[lh := ListHead(lheads[lh].offset, size)];
      if size < 56 {
        lhsize := lhsize + 1;
      } else {
        var n := IntSize(size);
        lhsize := lhsize + 1 + n;
      }
    }

    /** The writer of an interface value: encodeString, or list, elements, listEnd. */
    method Write(x: Item)
      requires |Encode(x)| < LIMIT
      modifies this
      ensures str == old(str) + Data(x)
      ensures lheads == old(lheads) + ListHeads(x, |old(str)|)
      ensures lhsize == old(lhsize) + Overhead(x)
      decreases x, 0
    {
      match x
      case Str(b) =>
        EncodeString(b);
      case Lst(xs) =>
        var lh := List();
        ghost var open := lheads;
        WriteAll(xs);
        ListEnd(lh);
        ghost var heads := ListHeadsAll(xs, |old(str)|);
        assert (open + heads)[lh] == ListHead(|old(str)|, old(lhsize));
        assert open + heads == old(lheads) + [ListHead(|old(str)|, old(lhsize))] + heads;
        assert (open + heads)[lh := ListHead(|old(str)|, |EncodeAll(xs)|)] == old(lheads) + ListHeads(x, |old(str)|);
    }

    /** The loop over the elements of a slice. */
    method WriteAll(xs: seq<Item>)
      requires |EncodeAll(xs)| < LIMIT
      modifies this
      ensures str == old(str) + DataAll(xs)
      ensures lheads == old(lheads) + ListHeadsAll(xs, |old(str)|)
      ensures lhsize == old(lhsize) + OverheadAll(xs)
      decreases xs, 0
    {
      hide Data, DataAll, Encode, EncodeAll, ListHeads, ListHeadsAll, Overhead, OverheadAll;
      assert xs[0..] == xs;
      for i := 0 to |xs|
        invariant |EncodeAll(xs[i..])| < LIMIT
        invariant str + DataAll(xs[i..]) == old(str) + DataAll(xs)
        invariant lheads + ListHeadsAll(xs[i..], |str|) == old(lheads) + ListHeadsAll(xs, |old(str)|)
        invariant lhsize + OverheadAll(xs[i..]) == old(lhsize) + OverheadAll(xs)
      {
        NextElement(xs, i, |str|);
        ghost var s0, h0 := str, lheads;
        Write(xs[i]);
        assert s0 + (Data(xs[i]) + DataAll(xs[i + 1..])) == str + DataAll(xs[i + 1..]);
        assert h0 + (ListHeads(xs[i], |s0|) + ListHeadsAll(xs[i + 1..], |str|))
            == lheads + ListHeadsAll(xs[i + 1..], |str|);
      }
      NoElements(xs[|xs|..], |str|);
    }

    /** toBytes: string data and headers are copied in turn into a buffer of exactly
        the right size. */
    method ToBytes() returns (out: array<Byte>)
      requires Complete() && Size() < LIMIT
      ensures fresh(out) && out[..] == Merge(str, lheads, 0)
    {
      hide Merge, Ordered, Header;
      out := new Byte[Size()](_ => 0);
      ghost var all := Merge(str, lheads, 0);
      var strpos: nat, pos: nat := 0, 0;
      assert out[..0] == [] && lheads[0..] == lheads;
      for i := 0 to |lheads|
        invariant strpos <= |str| && pos <= out.Length
        invariant Ordered(lheads[i..], strpos, |str|)
        invariant out[..pos] + Merge(str, lheads[i..], strpos) == all
      {
        var head := lheads[i];
        assert lheads[i..][1..] == lheads[i + 1..];
        MergeStep(str, lheads[i..], strpos);
        ghost var done, rest := out[..pos], Merge(str, lheads[i + 1..], head.offset);
        var data := str[strpos..head.offset];
        Regroup(done, data, ListHeader(head.size), rest);
        CopyInto(out, pos, data);
        pos := pos + |data|;
        strpos := strpos + |data|;
        var enc := PutHead(0xC0, 0xF7, head.size);
        CopyInto(out, pos, enc);
        pos := pos + |enc|;
        assert out[..pos] == done + data + enc;
      }
      MergeEnd(str, lheads[|lheads|..], strpos);
      CopyInto(out, pos, str[strpos..]);
      assert out[..out.Length] == out[..];
    }
  }

  lemma NoElements(xs: seq<Item>, base: nat)
    requires xs == []
    ensures DataAll(xs) == [] && ListHeadsAll(xs, base) == [] && OverheadAll(xs) == 0
  {
  }

  lemma Regroup(a: seq<Byte>, b: seq<Byte>, c: seq<Byte>, d: seq<Byte>)
    ensures a + (b + (c + d)) == a + b + c + d
    ensures |a + (b + (c + d))| == |a| + |b| + |c| + |d|
  {
  }

  lemma MergeEnd(str: seq<Byte>, hs: seq<ListHead>, from: nat)
    requires hs == [] && Ordered(hs, from, |str|)
    ensures Merge(str, hs, from) == str[from..]
  {
  }

  /** EncodeToBytes: the deferred headers give the plain recursive encoding. */
  method EncodeToBytes(x: Item) returns (out: array<Byte>)
    requires |Encode(x)| < LIMIT
    ensures fresh(out) && out[..] == Encode(x)
  {
    var eb := new EncBuf();
    eb.Write(x);
    MergeEncodes(x);
    assert eb.str == Data(x) && eb.lheads == ListHeads(x, 0);
    HeadSizes(x, 0);
    out := eb.ToBytes();
  }

  /** encReader: hands out the merged output in pieces; buf is null at EOF. */
  class EncReader {
    var buf: EncBuf?
    var lhpos: nat
    var strpos: nat
    var piece: Option<seq<Byte>>

    ghost predicate Valid()
      reads this, buf
    {
      && (buf == null ==> piece.None?)
      && (piece.Some? ==> piece.value != [])
      && (buf != null ==>
            && lhpos <= |buf.lheads| && Ordered(buf.lheads[lhpos..], strpos, |buf.str|)
            && (forall i :: 0 <= i < |buf.lheads| ==> buf.lheads[i].size < LIMIT))
    }

    /** What the pieces after the current one will hold. */
    ghost function Later(): (b: seq<Byte>)
      requires Valid()
      reads this, buf
    {
      if buf == null then [] else Merge(buf.str, buf.lheads[lhpos..], strpos)
    }

    /** What is still to be delivered. */
    ghost function Remaining(): (b: seq<Byte>)
      requires Valid()
      reads this, buf
    {
      (if piece.Some? then piece.value else []) + Later()
    }

    constructor (eb: EncBuf)
      requires eb.Complete() && eb.Size() < LIMIT
      ensures Valid() && buf == eb && Remaining() == Merge(eb.str, eb.lheads, 0)
    {
      buf, lhpos, strpos, piece := eb, 0, 0, None;
      new;
      assert eb.lheads[0..] == eb.lheads;
    }

    /** next: the pending piece, or the data before the next header, or that header,
        or the data after the last one. */
    method Next() returns (p: Option<seq<Byte>>)
      requires Valid()
      modifies this`lhpos, this`strpos
      ensures Valid()
      ensures p.None? <==> old(Remaining()) == []
      ensures p.Some? ==> buf != null && p.value != [] && old(Remaining()) == p.value + Later()
    {
      hide Ordered, Merge;
      if buf == null {
        return None;
      }
      if piece.Some? {
        return piece;
      }
      assert [] + Later() == Later();
      if lhpos < |buf.lheads| {
        p := AtHeader();
      } else {
        p := Rest();
      }
    }

    /** The data before a header, or the header. */
    method AtHeader() returns (p: Option<seq<Byte>>)
      requires Valid() && buf != null && piece.None? && lhpos < |buf.lheads|
      modifies this`lhpos, this`strpos
      ensures Valid() && p.Some? && p.value != [] && old(Later()) == p.value + Later()
    {
      hide Ordered, Merge, Header;
      var head := buf.lheads[lhpos];
      MergeStep(buf.str, buf.lheads[lhpos..], strpos);
      assert buf.lheads[lhpos..][1..] == buf.lheads[lhpos + 1..];
      if head.offset - strpos > 0 {
        p := Some(buf.str[strpos..head.offset]);
        MergeFromOffset(buf.str, buf.lheads[lhpos..], strpos);
        strpos := head.offset;
        return;
      }
      var h := PutHead(0xC0, 0xF7, head.size);
      p := Some(h);
      assert buf.str[strpos..head.offset] == [];
      lhpos := lhpos + 1;
    }

    /** The data after the last header. */
    method Rest() returns (p: Option<seq<Byte>>)
      requires Valid() && buf != null && piece.None? && lhpos == |buf.lheads|
      modifies this`strpos
      ensures Valid()
      ensures p.None? <==> old(Later()) == []
      ensures p.Some? ==> p.value != [] && old(Later()) == p.value + Later()
    {
      hide Ordered, Merge;
      MergeEnd(buf.str, buf.lheads[lhpos..], strpos);
      OrderedBounds(buf.lheads[lhpos..], strpos, |buf.str|);
      if strpos == |buf.str| {
        return None;
      }
      p := Some(buf.str[strpos..]);
      strpos := |buf.str|;
      NoHeads(buf.str, buf.lheads[lhpos..]);
    }

    /** Read into a buffer of `cap` bytes: the bytes delivered and whether EOF is returned. */
    method Read(cap: nat) returns (data: seq<Byte>, eof: bool)
      requires Valid()
      modifies this
      ensures Valid()
      ensures old(Remaining()) == data + Remaining()
      ensures if eof then |data| <= cap && Remaining() == [] else |data| == cap && Remaining() != []
    {
      hide Merge, Ordered;
      data := [];
      while true
        invariant Valid() && |data| <= cap && old(Remaining()) == data + Remaining()
        decreases |Remaining()|
      {
        var p := Next();
        piece := p;
        if p.None? {
          buf := null;
          return data, true;
        }
        var room := cap - |data|;
        var nn := if |p.value| < room then |p.value| else room;
        ghost var before := data;
        data := data + p.value[..nn];
        assert p.value == p.value[..nn] + p.value[nn..];
        Delivered(before, p.value[..nn], p.value[nn..], Later());
        if nn < |p.value| {
          piece := Some(p.value[nn..]);
          return data, false;
        }
        piece := None;
      }
    }
  }

  lemma Delivered(before: seq<Byte>, taken: seq<Byte>, left: seq<Byte>, later: seq<Byte>)
    ensures before + ((taken + left) + later) == (before + taken) + (left + later)
  {
  }

  /** Past the data before it, the next header is due. */
  lemma MergeFromOffset(str: seq<Byte>, hs: seq<ListHead>, from: nat)
    requires hs != [] && Ordered(hs, from, |str|)
    ensures Ordered(hs, hs[0].offset, |str|)
    ensures Merge(str, hs, hs[0].offset) == ListHeader(hs[0].size) + Merge(str, hs[1..], hs[0].offset)
  {
    MergeStep(str, hs, from);
    MergeStep(str, hs, hs[0].offset);
    assert str[hs[0].offset..hs[0].offset] == [];
  }

  lemma NoHeads(str: seq<Byte>, hs: seq<ListHead>)
    requires hs == []
    ensures Ordered(hs, |str|, |str|) && Merge(str, hs, |str|) == []
  {
  }

  /** EncodeToReader */
  method EncodeToReader(x: Item) returns (size: nat, r: EncReader)
    requires |Encode(x)| < LIMIT
    ensures fresh(r) && r.Valid() && r.Remaining() == Encode(x) && size == |Encode(x)|
  {
    hide Merge, Ordered;
    var eb := new EncBuf();
    eb.Write(x);
    MergeEncodes(x);
    HeadSizes(x, 0);
    assert eb.str == Data(x) && eb.lheads == ListHeads(x, 0);
    size := eb.Size();
    r := new EncReader(eb);
  }

  /** Whatever the buffer sizes of the reads, the pieces concatenate to the encoding. */
  method ReadInPieces(x: Item, sizes: seq<nat>) returns (got: seq<Byte>, r: EncReader)
    requires |Encode(x)| < LIMIT
    ensures r.Valid() && got + r.Remaining() == Encode(x)
    ensures |got| <= Total(sizes) && (|Encode(x)| > Total(sizes) ==> |got| == Total(sizes))
    ensures Total(sizes) >= |Encode(x)| ==> got == Encode(x)
  {
    hide Encode, Merge, Ordered, Total, EncReader.Valid, EncReader.Remaining;
    var size;
    size, r := EncodeToReader(x);
    got := [];
    NoneTotal(sizes);
    for i := 0 to |sizes|
      invariant r.Valid() && fresh(r) && got + r.Remaining() == Encode(x)
      invariant |got| <= Total(sizes[..i]) && (r.Remaining() != [] ==> |got| == Total(sizes[..i]))
    {
      ghost var before, rest := got, r.Remaining();
      var data, eof := r.Read(sizes[i]);
      got := got + data;
      Associate(before, data, r.Remaining());
      TotalNext(sizes, i);
    }
    assert sizes[..|sizes|] == sizes;
  }
}
