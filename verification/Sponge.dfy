/** The buffered sponge behind SHA-3 and SHAKE, for any permutation and rate. */
module Sponge {
  import opened Bits
  import opened Congruence
  import opened Longs
  import Pieces
  import opened Wrappers

  /** The size of the buffer. */
  const MAX_RATE: nat := 168
  /** The 25 lanes of the state, as their little-endian bytes. */
  const WIDTH: nat := 200
  type Lanes = s: seq<Octet> | |s| == 200 witness seq(200, _ => 0)

  // ----- The one-shot sponge

  function Zero(): (a: Lanes)
  {
    seq(WIDTH, _ => 0)
  }

  function XorIn(a: Lanes, b: seq<Octet>): (r: Lanes)
    requires |b| <= WIDTH
  {
    seq(WIDTH, i requires 0 <= i < WIDTH => if i < |b| then a[i] ^ b[i] else a[i])
  }

  /** The message is followed by the separator bits, a one, zeros and a last one. */
  function Padding(ds: Octet, n: nat): (p: seq<Octet>)
    requires n > 0
    ensures |p| == n
  {
    if n == 1 then [ds ^ 0x80] else [ds] + seq(n - 2, _ => 0) + [0x80]
  }

  function Pad(m: seq<Octet>, ds: Octet, rate: nat): (p: seq<Octet>)
    requires rate > 0
  {
    m + Padding(ds, rate - |m| % rate)
  }

  /** Absorbing whole blocks. */
  function Absorb(f: Lanes -> Lanes, rate: nat, m: seq<Octet>): (a: Lanes)
    requires 0 < rate <= WIDTH
  {
    if |m| < rate then Zero()
    else f(XorIn(Absorb(f, rate, m[..|m| - rate]), m[|m| - rate..]))
  }

  function Iterate(f: Lanes -> Lanes, n: nat, a: Lanes): (r: Lanes)
  {
    if n == 0 then a else f(Iterate(f, n - 1, a))
  }

  lemma IterateStep(f: Lanes -> Lanes, n: nat, a: Lanes)
    ensures Iterate(f, n + 1, a) == f(Iterate(f, n, a))
  {
  }

  /** The block and the place in it of output byte i. */
  function BlockOf(i: nat, rate: nat): (q: nat)
    requires rate > 0
  {
    i / rate
  }

  function PlaceOf(i: nat, rate: nat): (o: nat)
    requires rate > 0
    ensures o < rate
  {
    i % rate
  }

  /** Octet i of the endless output. */
  function OutputAt(f: Lanes -> Lanes, rate: nat, a: Lanes, i: nat): (b: Octet)
    requires 0 < rate <= WIDTH
  {
    Iterate(f, BlockOf(i, rate), a)[PlaceOf(i, rate)]
  }

  /** Output bytes from position i on. */
  function Squeeze(f: Lanes -> Lanes, rate: nat, a: Lanes, i: nat, n: nat): (out: seq<Octet>)
    requires 0 < rate <= WIDTH
    ensures |out| == n && forall k :: 0 <= k < n ==> out[k] == OutputAt(f, rate, a, i + k)
  {
    seq(n, k requires 0 <= k < n => OutputAt(f, rate, a, i + k))
  }

  /** The first n bytes of the sponge function of a message. */
  function Hash(f: Lanes -> Lanes, rate: nat, ds: Octet, m: seq<Octet>, n: nat): (out: seq<Octet>)
    requires 0 < rate <= WIDTH
    ensures |out| == n
  {
    Squeeze(f, rate, Absorb(f, rate, Pad(m, ds, rate)), 0, n)
  }

  lemma SqueezeJoins(f: Lanes -> Lanes, rate: nat, a: Lanes, i: nat, m: nat, n: nat)
    requires 0 < rate <= WIDTH
    ensures Squeeze(f, rate, a, i, m) + Squeeze(f, rate, a, i + m, n) == Squeeze(f, rate, a, i, m + n)
  {
  }

  // ----- Padding is pad10*1

  /** The separator byte: t suffix bits under a one bit. */
  ghost predicate Separator(ds: Octet, t: nat)
  {
    t < 7 && OctetBit(ds, t) && forall k :: t < k < 8 ==> !OctetBit(ds, k)
  }

  /** Section 5.1 of FIPS 202: after the message and the suffix come 1, as few zeros as
      fill the block, and 1. */
  lemma PadIsPad10Star1(m: seq<Octet>, ds: Octet, t: nat, rate: nat, i: nat)
    requires rate > 0 && Separator(ds, t)
    ensures var p := Pad(m, ds, rate);
            var start := 8 * |m| + t;
            && |p| % rate == 0 && start + 2 <= 8 * |p| < start + 2 + 8 * rate
            && (i < 8 * |p| ==>
                  BitAt(p, i) ==
                  (if i < 8 * |m| then BitAt(m, i)
                   else if i < start then BitAt([ds], i - 8 * |m|)
                   else i == start || i == 8 * |p| - 1))
  {
    PadLength(m, ds, rate);
    assert t < 7;
    hide BitAt, Separator, Padding;
    if i < 8 * |Pad(m, ds, rate)| {
      PadBits(m, ds, t, rate - |m| % rate, i);
    }
  }

  lemma PadBits(m: seq<Octet>, ds: Octet, t: nat, n: nat, i: nat)
    requires n > 0 && Separator(ds, t) && i < 8 * |m| + 8 * n
    ensures BitAt(m + Padding(ds, n), i) ==
            (if i < 8 * |m| then BitAt(m, i)
             else if i < 8 * |m| + t then BitAt([ds], i - 8 * |m|)
             else i == 8 * |m| + t || i == 8 * |m| + 8 * n - 1)
  {
    BitAtJoin(m, Padding(ds, n), i);
    assert t < 7;
    hide BitAt, Padding, Separator;
    if i >= 8 * |m| {
      PaddingBits(ds, t, n, i - 8 * |m|);
    }
  }

  lemma PadLength(m: seq<Octet>, ds: Octet, rate: nat)
    requires rate > 0
    ensures |Pad(m, ds, rate)| % rate == 0 && |m| < |Pad(m, ds, rate)| <= |m| + rate
  {
    var q := |m| / rate;
    assert |m| == rate * q + |m| % rate;
    assert |Pad(m, ds, rate)| == rate * q + rate == rate * (q + 1);
    assert (rate * (q + 1)) % rate == 0 by { MultipleOf(rate, q + 1); }
  }

  lemma MultipleOf(rate: nat, k: nat)
    requires rate > 0
    ensures (rate * k) % rate == 0
  {
    RemainderUnique(0, k, rate, rate * k);
  }

  lemma BitAtJoin(m: seq<Octet>, s: seq<Octet>, i: nat)
    requires i < 8 * |m + s|
    ensures BitAt(m + s, i) == if i < 8 * |m| then BitAt(m, i) else BitAt(s, i - 8 * |m|)
  {
    if i >= 8 * |m| {
      var j := i - 8 * |m|;
      assert j / 8 == i / 8 - |m| && j % 8 == i % 8;
    }
  }

  lemma PaddingBits(ds: Octet, t: nat, n: nat, i: nat)
    requires Separator(ds, t) && n > 0 && i < 8 * n
    ensures BitAt(Padding(ds, n), i) == if i < t then BitAt([ds], i) else i == t || i == 8 * n - 1
  {
    var p := Padding(ds, n);
    var k := i % 8;
    if i / 8 == 0 {
      assert p[0] == if n == 1 then ds ^ 0x80 else ds;
      BitXor(ds, k);
    } else {
      NoBits(k);
    }
  }

  lemma BitXor(b: Octet, k: nat)
    requires k < 8
    ensures OctetBit(b ^ 0x80, k) == if k < 7 then OctetBit(b, k) else !OctetBit(b, 7)
  {
  }

  lemma NoBits(k: nat)
    requires k < 8
    ensures !OctetBit(0, k) && (OctetBit(0x80, k) <==> k == 7)
  {
  }

  // ----- The buffered form

  lemma AbsorbBlock(f: Lanes -> Lanes, rate: nat, m: seq<Octet>, b: seq<Octet>)
    requires 0 < rate <= WIDTH && |b| == rate
    ensures Absorb(f, rate, m + b) == f(XorIn(Absorb(f, rate, m), b))
  {
    assert (m + b)[..|m|] == m && (m + b)[|m|..] == b;
  }

  lemma DivModUnique(q: nat, o: nat, rate: nat)
    requires o < rate
    ensures (rate * q + o) / rate == q && (rate * q + o) % rate == o
  {
    var i := rate * q + o;
    RemainderUnique(o, q, rate, i);
    var d := i / rate - q;
    assert rate * d == 0 by { assert rate * (i / rate) == rate * q; }
    assert d >= 1 ==> rate * d >= rate;
    assert d <= -1 ==> rate * d < 0;
  }

  /** Moving on inside a block, or to the start of the next. */
  lemma Advance(pos: nat, k: nat, rate: nat)
    requires rate > 0 && PlaceOf(pos, rate) + k <= rate
    ensures PlaceOf(pos, rate) + k < rate ==>
              BlockOf(pos + k, rate) == BlockOf(pos, rate) && PlaceOf(pos + k, rate) == PlaceOf(pos, rate) + k
    ensures PlaceOf(pos, rate) + k == rate ==>
              BlockOf(pos + k, rate) == BlockOf(pos, rate) + 1 && PlaceOf(pos + k, rate) == 0
  {
    var q, o := pos / rate, pos % rate;
    assert pos == rate * q + o;
    if o + k < rate {
      DivModUnique(q, o + k, rate);
    } else {
      assert pos + k == rate * (q + 1) + 0;
      DivModUnique(q + 1, 0, rate);
    }
  }

  /** What is left of the block at pos is the next part of the output. */
  lemma BlockIsOutput(f: Lanes -> Lanes, rate: nat, a: Lanes, pos: nat, k: nat)
    requires 0 < rate <= WIDTH && PlaceOf(pos, rate) + k <= rate
    ensures Iterate(f, BlockOf(pos, rate), a)[PlaceOf(pos, rate)..PlaceOf(pos, rate) + k] == Squeeze(f, rate, a, pos, k)
  {
    hide BlockOf, PlaceOf, Iterate;
    var o := PlaceOf(pos, rate);
    var block := Iterate(f, BlockOf(pos, rate), a)[o..o + k];
    forall j | 0 <= j < k
      ensures block[j] == OutputAt(f, rate, a, pos + j)
    {
      Advance(pos, j, rate);
    }
  }

  class State {
    const f: Lanes -> Lanes
    const rate: nat
    const dsbyte: Octet
    const outputLen: nat
    var a: Lanes
    var buf: seq<Octet>
    var squeezing: bool
    /** All that was written, and how much was read. */
    ghost var msg: seq<Octet>
    ghost var pos: nat

    /** While absorbing the buffer is shorter than a block; while squeezing it is not empty. */
    ghost predicate Valid()
      reads this
    {
      && 0 < rate <= MAX_RATE
      && if squeezing then
           && a == Iterate(f, BlockOf(pos, rate), Final()) && buf == a[PlaceOf(pos, rate)..rate]
         else
           && pos == 0 && |buf| < rate && |buf| <= |msg| && buf == msg[|msg| - |buf|..]
           && (|msg| - |buf|) % rate == 0 && a == Absorb(f, rate, msg[..|msg| - |buf|])
    }

    ghost function Final(): (s: Lanes)
      requires 0 < rate <= MAX_RATE
      reads this
    {
      Absorb(f, rate, Pad(msg, dsbyte, rate))
    }

    constructor (f: Lanes -> Lanes, rate: nat, dsbyte: Octet, outputLen: nat)
      requires 0 < rate <= MAX_RATE
      ensures Valid() && !squeezing && msg == []
      ensures this.f == f && this.rate == rate && this.dsbyte == dsbyte && this.outputLen == outputLen
    {
      this.f, this.rate, this.dsbyte, this.outputLen := f, rate, dsbyte, outputLen;
      a, buf, squeezing, msg, pos := Zero(), [], false, [], 0;
    }

    method Reset()
      requires 0 < rate <= MAX_RATE
      modifies this
      ensures Valid() && !squeezing && msg == []
    {
      a, buf, squeezing, msg, pos := Zero(), [], false, [], 0;
    }

    /** xorIn and the permutation, on one block that ends the message */
    method AbsorbOne(b: seq<Octet>, ghost m: seq<Octet>)
      requires 0 < rate <= MAX_RATE && |b| == rate && a == Absorb(f, rate, m)
      modifies this`a
      ensures a == Absorb(f, rate, m + b)
    {
      a := f(XorIn(a, b));
      AbsorbBlock(f, rate, m, b);
    }

    /** Write; false is its panic. */
    method Write(p: seq<Octet>) returns (ok: bool)
      requires Valid()
      modifies this
      ensures Valid() && squeezing == old(squeezing) && ok == !squeezing
      ensures msg == if ok then old(msg) + p else old(msg)
      ensures !ok ==> unchanged(this)
    {
      if squeezing {
        return false;
      }
      var k := 0;
      assert p[..0] == [];
      while k < |p|
        invariant 0 <= k <= |p| && Valid() && !squeezing && msg == old(msg) + p[..k]
      {
        var todo := Chunk(rate - |buf|, |p| - k);
        WriteSome(p[k..k + todo]);
        assert p[..k] + p[k..k + todo] == p[..k + todo];
        k := k + todo;
      }
      assert p[..|p|] == p;
      return true;
    }

    /** One pass of its loop: a whole block past the buffer, or into the buffer. */
    method WriteSome(p: seq<Octet>)
      requires Valid() && !squeezing && 0 < |p| <= rate - |buf|
      modifies this
      ensures Valid() && !squeezing && msg == old(msg) + p
    {
      hide Absorb, Iterate, XorIn;
      ghost var m := msg[..|msg| - |buf|];
      assert msg == m + buf;
      msg := msg + p;
      if |buf| == 0 && |p| == rate {
        AbsorbOne(p, m);
      } else {
        buf := buf + p;
        if |buf| == rate {
          AbsorbOne(buf, m);
          buf := [];
        }
      }
      BlocksOf(m, old(buf) + p, rate);
      assert msg == m + (old(buf) + p);
      if |buf| == 0 {
        assert old(buf) + p == if |old(buf)| == 0 then p else old(buf) + p;
        assert msg[..|msg|] == msg && msg[|msg|..] == [];
      } else {
        assert msg[..|m|] == m && msg[|m|..] == buf;
      }
    }

    /** Its separator, zeros and last bit, written into the buffer. */
    method PadBlock(b: seq<Octet>) returns (p: seq<Octet>)
      requires |b| < rate
      ensures p == b + Padding(dsbyte, rate - |b|)
    {
      p := b + [dsbyte];
      p := p + seq(rate - |p|, _ => 0 as Octet);
      p := p[rate - 1 := p[rate - 1] ^ 0x80];
      TopOfZero();
    }

    /** padAndPermute */
    method PadAndPermute()
      requires Valid() && !squeezing
      modifies this
      ensures Valid() && squeezing && pos == 0 && msg == old(msg)
    {
      hide Absorb, XorIn, Pad;
      ghost var m := msg[..|msg| - |buf|];
      assert msg == m + buf;
      BlocksOf(m, buf, rate);
      buf := PadBlock(buf);
      assert m + buf == Pad(msg, dsbyte, rate) by { PadSplits(m, old(buf), dsbyte, rate); }
      AbsorbOne(buf, m);
      squeezing, buf := true, a[..rate];
      assert a[0..rate] == a[..rate];
    }

    /** Read of n bytes. */
    method Read(n: nat) returns (out: seq<Octet>)
      requires Valid()
      modifies this
      ensures Valid() && squeezing && msg == old(msg) && pos == old(pos) + n
      ensures out == Squeeze(f, rate, Final(), old(pos), n)
    {
      hide Absorb, Iterate, Pad, OutputAt;
      if !squeezing {
        PadAndPermute();
      }
      out := [];
      while |out| < n
        invariant Valid() && squeezing && msg == old(msg) && pos == old(pos) + |out| && |out| <= n
        invariant out == Squeeze(f, rate, Final(), old(pos), |out|)
      {
        var k := Chunk(|buf|, n - |out|);
        SqueezeJoins(f, rate, Final(), old(pos), |out|, k);
        var b := ReadSome(k);
        out := out + b;
      }
    }

    /** One pass of its loop. */
    method ReadSome(k: nat) returns (b: seq<Octet>)
      requires Valid() && squeezing && k <= |buf|
      modifies this`a, this`buf, this`pos
      ensures Valid() && pos == old(pos) + k && b == Squeeze(f, rate, Final(), old(pos), k)
    {
      hide Absorb, Pad, OutputAt, Iterate, Squeeze, BlockOf, PlaceOf;
      b := buf[..k];
      assert b == a[PlaceOf(pos, rate)..PlaceOf(pos, rate) + k];
      IterateStep(f, BlockOf(pos, rate), Final());
      BlockIsOutput(f, rate, Final(), pos, k);
      Advance(pos, k, rate);
      pos := pos + k;
      buf := buf[k..];
      if |buf| == 0 {
        a := f(a);
        buf := a[..rate];
        assert a[0..rate] == a[..rate];
      }
    }

    /** The bytes from the start of the buffer to the end of its storage. */
    function Capacity(): (n: int)
      reads this`buf
    {
      MAX_RATE - (rate - |buf|)
    }

    /** clone, and its panic for a slice that starts below zero. While squeezing the block
        is in the storage, and the copy starts where the capacity says. */
    method Clone() returns (d: Option<State>)
      requires Valid()
      ensures d.None? <==> squeezing && rate + PlaceOf(pos, rate) < MAX_RATE
      ensures d.Some? ==> var c := d.value;
        && fresh(c) && c.Valid() && c.squeezing == squeezing && c.msg == msg
        && c.f == f && c.rate == rate && c.dsbyte == dsbyte && c.outputLen == outputLen
        && c.pos == if squeezing then pos - (MAX_RATE - rate) else 0
    {
      hide Valid, PlaceOf;
      UnreadPart(this);
      var c := new State(f, rate, dsbyte, outputLen);
      c.a, c.buf, c.squeezing, c.msg := a, buf, squeezing, msg;
      if squeezing {
        var start := rate - Capacity();
        if start < 0 {
          return None;
        }
        c.buf := a[start..rate];
        Back(pos, MAX_RATE - rate, rate);
        c.pos := pos - (MAX_RATE - rate);
      }
      CopyIsValid(this, c);
      return Some(c);
    }

    /** Sum works on a clone, so that the caller can keep writing. */
    method Sum(prefix: seq<Octet>) returns (r: Option<seq<Octet>>)
      requires Valid()
      ensures r == match SumOf(f, rate, dsbyte, msg, squeezing, pos, outputLen)
                   case None => None
                   case Some(hash) => Some(prefix + hash)
    {
      hide Absorb, Pad, Iterate, Squeeze, BlockOf, PlaceOf;
      var dup := Clone();
      if dup.None? {
        return None;
      }
      var hash := dup.value.Read(outputLen);
      return Some(prefix + hash);
    }
  }

  lemma UnreadPart(s: State)
    requires s.Valid()
    ensures 0 < s.rate <= MAX_RATE && |s.buf| <= s.rate
    ensures s.squeezing ==> |s.buf| == s.rate - PlaceOf(s.pos, s.rate)
    ensures !s.squeezing ==> s.pos == 0
  {
  }

  lemma CopyIsValid(s: State, c: State)
    requires s.Valid() && c.a == s.a && c.squeezing == s.squeezing && c.msg == s.msg
    requires c.f == s.f && c.rate == s.rate && c.dsbyte == s.dsbyte
    requires !s.squeezing ==> c.buf == s.buf && c.pos == s.pos
    requires s.squeezing ==> BlockOf(c.pos, c.rate) == BlockOf(s.pos, s.rate) && c.buf == c.a[PlaceOf(c.pos, c.rate)..c.rate]
    ensures c.Valid()
  {
    hide Absorb, Iterate, BlockOf, PlaceOf, Pad;
  }

  /** The sum of a sponge from which pos bytes were read, or nothing for the panic. */
  function SumOf(f: Lanes -> Lanes, rate: nat, ds: Octet, m: seq<Octet>, squeezing: bool, pos: nat, n: nat)
    : (r: Option<seq<Octet>>)
    requires 0 < rate <= MAX_RATE
  {
    if !squeezing then Some(Hash(f, rate, ds, m, n))
    else if rate + PlaceOf(pos, rate) < MAX_RATE then None
    else
      (Back(pos, MAX_RATE - rate, rate);
       Some(Squeeze(f, rate, Absorb(f, rate, Pad(m, ds, rate)), pos - (MAX_RATE - rate), n)))
  }

  /** Moving back inside a block. */
  lemma Back(pos: nat, k: nat, rate: nat)
    requires rate > 0 && k <= PlaceOf(pos, rate)
    ensures k <= pos
    ensures BlockOf(pos - k, rate) == BlockOf(pos, rate) && PlaceOf(pos - k, rate) == PlaceOf(pos, rate) - k
  {
    var q, o := pos / rate, pos % rate;
    assert pos == rate * q + o;
    DivModUnique(q, o - k, rate);
  }

  // ----- A sum in the middle of the output

  /** The sum is the next part of the output. */
  ghost predicate GoesOn(f: Lanes -> Lanes, rate: nat, ds: Octet, m: seq<Octet>, pos: nat, n: nat)
    requires 0 < rate <= MAX_RATE
  {
    SumOf(f, rate, ds, m, true, pos, n) == Some(Squeeze(f, rate, Absorb(f, rate, Pad(m, ds, rate)), pos, n))
  }

  ghost predicate Undoes(g: Lanes -> Lanes, f: Lanes -> Lanes)
  {
    forall a: Lanes :: g(f(a)) == a
  }

  ghost predicate Permutation(f: Lanes -> Lanes)
  {
    exists g: Lanes -> Lanes :: Undoes(g, f) && Undoes(f, g)
  }

  /** Near the start of a block, its very start included, a sum panics for every rate but
      the greatest, whatever is hashed by whatever permutation. */
  lemma NeverGoesOn(rate: nat, ds: Octet, pos: nat, n: nat)
    requires 0 < rate < MAX_RATE && PlaceOf(pos, rate) < MAX_RATE - rate
    ensures forall f: Lanes -> Lanes, m: seq<Octet> :: SumOf(f, rate, ds, m, true, pos, n) == None && !GoesOn(f, rate, ds, m, pos, n)
  {
    hide Absorb, Pad, Squeeze, PlaceOf;
  }

  /** After reading to any place, a sum goes on with the output, whatever is hashed by
      whatever permutation, if and only if the rate is the size of the buffer. */
  lemma SumAfterReadIff(rate: nat, ds: Octet, pos: nat, n: nat)
    requires 0 < rate <= MAX_RATE && n > 0
    ensures (forall f: Lanes -> Lanes, m: seq<Octet> :: Permutation(f) ==> GoesOn(f, rate, ds, m, pos, n)) <==> rate == MAX_RATE
  {
    if rate < MAX_RATE {
      IdentityPermutes();
      var m := Telling(rate, ds, PlaceOf(pos, rate));
      SumRepeats(rate, ds, m, pos, n);
      hide GoesOn, Permutation;
      assert !GoesOn(Identity(), rate, ds, m, pos, n);
    } else {
      hide BlockOf, PlaceOf, Iterate, Absorb, Pad, Squeeze, Permutation;
      assert forall f: Lanes -> Lanes, m: seq<Octet> :: GoesOn(f, rate, ds, m, pos, n);
    }
  }

  function Identity(): (f: Lanes -> Lanes)
  {
    a => a
  }

  lemma IdentityPermutes()
    ensures Permutation(Identity())
  {
    assert Undoes(Identity(), Identity());
  }

  /** A message of one block whose bytes at place o and 168 - rate before it differ. */
  function Telling(rate: nat, ds: Octet, o: nat): (m: seq<Octet>)
    requires 0 < rate <= MAX_RATE
  {
    seq(rate - 1, i => if i + (MAX_RATE - rate) != o then 0 else if o == rate - 1 then ds ^ 0x81 else 1)
  }

  lemma TellingAbsorbed(rate: nat, ds: Octet, o: nat)
    requires 0 < rate < MAX_RATE && MAX_RATE - rate <= o < rate
    ensures var a := Absorb(Identity(), rate, Pad(Telling(rate, ds, o), ds, rate));
            a[o] != a[o - (MAX_RATE - rate)]
  {
    var m := Telling(rate, ds, o);
    var p := Pad(m, ds, rate);
    assert p == m + [ds ^ 0x80] by { OnePadByte(m, ds, rate); }
    hide Pad;
    assert p[..|p| - rate] == [] && p[|p| - rate..] == p;
    var f := Identity();
    assert Absorb(f, rate, []) == Zero();
    assert Absorb(f, rate, p) == f(XorIn(Zero(), p));
    var k := o - (MAX_RATE - rate);
    XorZero(p[o]);
    XorZero(p[k]);
    BitsDiffer(ds);
  }

  lemma OnePadByte(m: seq<Octet>, ds: Octet, rate: nat)
    requires rate > 0 && |m| == rate - 1
    ensures Pad(m, ds, rate) == m + [ds ^ 0x80]
  {
    assert |m| % rate == rate - 1;
  }

  lemma XorZero(b: Octet)
    ensures 0 ^ b == b
  {
  }

  lemma BitsDiffer(ds: Octet)
    ensures ds ^ 0x81 != ds ^ 0x80
  {
  }

  lemma {:induction false} IdentityStays(n: nat, a: Lanes)
    ensures Iterate(Identity(), n, a) == a
  {
    if n > 0 {
      IdentityStays(n - 1, a);
    }
  }

  /** With a lower rate there is a panic, or the sum starts with bytes already read. */
  lemma SumRepeats(rate: nat, ds: Octet, m: seq<Octet>, pos: nat, n: nat)
    requires 0 < rate < MAX_RATE && n > 0 && m == Telling(rate, ds, PlaceOf(pos, rate))
    ensures !GoesOn(Identity(), rate, ds, m, pos, n)
  {
    hide BlockOf, PlaceOf, Pad, Absorb, Iterate, Telling;
    var o, k := PlaceOf(pos, rate), MAX_RATE - rate;
    if o >= k {
      var f, a := Identity(), Absorb(Identity(), rate, Pad(m, ds, rate));
      TellingAbsorbed(rate, ds, o);
      Back(pos, k, rate);
      IdentityStays(BlockOf(pos, rate), a);
      assert Squeeze(f, rate, a, pos, n)[0] == a[o] && Squeeze(f, rate, a, pos - k, n)[0] == a[o - k];
    }
  }

  /** How much of what is left fits. */
  function Chunk(space: nat, left: nat): (n: nat)
    ensures n <= space && n <= left && (n == space || n == left)
  {
    if space > left then left else space
  }

  lemma PadSplits(m: seq<Octet>, b: seq<Octet>, ds: Octet, rate: nat)
    requires |b| < rate && |m| % rate == 0
    ensures Pad(m + b, ds, rate) == m + (b + Padding(ds, rate - |b|))
  {
    BlocksOf(m, b, rate);
  }

  lemma TopOfZero()
    ensures (0 as Octet) ^ 0x80 == 0x80
  {
  }

  lemma BlocksOf(m: seq<Octet>, b: seq<Octet>, rate: nat)
    requires rate > 0 && |m| % rate == 0 && |b| <= rate
    ensures |b| < rate ==> |m + b| % rate == |b|
    ensures |b| == rate ==> |m + b| % rate == 0
  {
    Advance(|m|, |b|, rate);
  }

  /** A sum and then a write. */
  method SumAndWrite(d: State, p: seq<Octet>) returns (sum: seq<Octet>)
    requires d.Valid() && !d.squeezing
    modifies d
    ensures d.Valid() && !d.squeezing && d.msg == old(d.msg) + p
    ensures 0 < d.rate <= WIDTH && sum == Hash(d.f, d.rate, d.dsbyte, old(d.msg), d.outputLen)
  {
    assert 0 < d.rate <= WIDTH;
    hide Hash, State.Valid;
    var s := d.Sum([]);
    sum := s.value;
    var ok := d.Write(p);
  }

  /** The sums that belong to the first pieces. */
  ghost predicate SumsOf(d: State, ps: seq<seq<Octet>>, sums: seq<seq<Octet>>)
    requires 0 < d.rate <= WIDTH
  {
    |sums| <= |ps| && forall i :: 0 <= i < |sums| ==> sums[i] == Hash(d.f, d.rate, d.dsbyte, Pieces.Flat(ps[..i]), d.outputLen)
  }

  lemma SumsSnoc(d: State, ps: seq<seq<Octet>>, sums: seq<seq<Octet>>, sum: seq<Octet>)
    requires 0 < d.rate <= WIDTH && SumsOf(d, ps, sums) && |sums| < |ps|
    requires sum == Hash(d.f, d.rate, d.dsbyte, Pieces.Flat(ps[..|sums|]), d.outputLen)
    ensures SumsOf(d, ps, sums + [sum]) && Pieces.Flat(ps[..|sums| + 1]) == Pieces.Flat(ps[..|sums|]) + ps[|sums|]
  {
    hide Hash;
    assert ps[..|sums| + 1][..|sums|] == ps[..|sums|];
  }

  /** Any cut of the input into writes, with a sum taken before each. */
  method WriteInPieces(d: State, ps: seq<seq<Octet>>) returns (sums: seq<seq<Octet>>)
    requires d.Valid() && !d.squeezing && d.msg == []
    modifies d
    ensures d.Valid() && !d.squeezing && d.msg == Pieces.Flat(ps)
    ensures 0 < d.rate <= WIDTH && |sums| == |ps| && SumsOf(d, ps, sums)
  {
    sums := [];
    assert SumsOf(d, ps, sums) && Pieces.Flat(ps[..0]) == [];
    assert 0 < d.rate <= WIDTH;
    hide Hash, State.Valid, SumsOf, Pieces.Flat;
    for i := 0 to |ps|
      invariant d.Valid() && !d.squeezing && d.msg == Pieces.Flat(ps[..i]) && |sums| == i && SumsOf(d, ps, sums)
    {
      var sum := SumAndWrite(d, ps[i]);
      SumsSnoc(d, ps, sums, sum);
      sums := sums + [sum];
    }
    assert ps[..|ps|] == ps;
  }

  /** Any cut of the output into reads. */
  method ReadInPieces(d: State, ns: seq<nat>) returns (out: seq<Octet>)
    requires d.Valid() && !d.squeezing
    modifies d
    ensures out == Hash(d.f, d.rate, d.dsbyte, old(d.msg), Pieces.Total(ns))
  {
    hide Absorb, Pad, Iterate, Squeeze, OutputAt;
    out := [];
    for i := 0 to |ns|
      invariant d.Valid() && d.msg == old(d.msg) && d.pos == Pieces.Total(ns[..i])
      invariant out == Hash(d.f, d.rate, d.dsbyte, old(d.msg), d.pos)
    {
      assert ns[..i + 1][..i] == ns[..i];
      SqueezeJoins(d.f, d.rate, d.Final(), 0, d.pos, ns[i]);
      var b := d.Read(ns[i]);
      out := out + b;
    }
    assert ns[..|ns|] == ns;
  }

  /** However the input is cut into writes and the output into reads, with sums taken in
      between, the bytes are those of the one-shot sponge. */
  method HashInPieces(f: Lanes -> Lanes, rate: nat, ds: Octet, outputLen: nat, ps: seq<seq<Octet>>, ns: seq<nat>)
    returns (out: seq<Octet>, sums: seq<seq<Octet>>)
    requires 0 < rate <= MAX_RATE
    ensures out == Hash(f, rate, ds, Pieces.Flat(ps), Pieces.Total(ns))
    ensures |sums| == |ps| && forall i :: 0 <= i < |ps| ==> sums[i] == Hash(f, rate, ds, Pieces.Flat(ps[..i]), outputLen)
  {
    hide Hash;
    var d := new State(f, rate, ds, outputLen);
    sums := WriteInPieces(d, ps);
    out := ReadInPieces(d, ns);
  }
}
