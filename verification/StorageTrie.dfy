/** The storage of one account: two write-back caches over one trie, and the flush of
    updateTrie. StorageWord keys and raw (PDX) keys share the trie and must not collide. */
module StorageTrie {
  import opened RlpFormat
  import opened RlpRaw
  import opened StateSpec

  /** A trie entry for a word: the RLP string of its bytes without leading zeros. */
  function Stored(w: StorageWord): (b: Bytes)
  {
    Encode(Str(BigEndian(w)))
  }

  function TrieSet(t: map<Hash, Bytes>, k: Hash, b: Bytes): (t': map<Hash, Bytes>)
  {
    if b == [] then t - {k} else t[k := b]
  }

  /** The bytes updateTrie leaves under the key of a word; none for zero. */
  function WordBytes(w: StorageWord): (b: Bytes)
  {
    if w == 0 then [] else Stored(w)
  }

  /** The trie after every pending write, in whatever order they are made. */
  function Flush(t: map<Hash, Bytes>, pending: map<Hash, Bytes>): (t': map<Hash, Bytes>)
  {
    map k | k in t.Keys + pending.Keys && !(k in pending && pending[k] == []) :: if k in pending then pending[k] else t[k]
  }

  function Pending(d: map<Hash, StorageWord>): (p: map<Hash, Bytes>)
  {
    map k | k in d :: WordBytes(d[k])
  }

  function Flushed(o: Object): (o': Object)
  {
    o.(trie := Flush(Flush(o.trie, Pending(o.dirty)), o.pdxDirty), dirty := map[], pdxDirty := map[])
  }

  /** Any one pending write may be made first. */
  lemma FlushStep(t: map<Hash, Bytes>, p: map<Hash, Bytes>, k: Hash)
    requires k in p
    ensures Flush(TrieSet(t, k, p[k]), p - {k}) == Flush(t, p)
  {
  }

  lemma FlushNothing(t: map<Hash, Bytes>)
    ensures Flush(t, map[]) == t
  {
  }

  lemma PendingNothing()
    ensures Pending(map[]) == map[]
  {
  }

  lemma PendingStep(d: map<Hash, StorageWord>, k: Hash)
    requires k in d
    ensures k in Pending(d) && Pending(d)[k] == WordBytes(d[k]) && Pending(d - {k}) == Pending(d) - {k}
  {
  }

  lemma FlushReads(t: map<Hash, Bytes>, p: map<Hash, Bytes>, k: Hash)
    ensures TrieBytes(Flush(t, p), k) == if k in p then p[k] else TrieBytes(t, k)
    ensures TrieWord(Flush(t, p), k) == if k in p then TrieWord(map[k := p[k]], k) else TrieWord(t, k)
  {
  }

  /** A stored word reads back. */
  lemma StoredReads(k: Hash, w: StorageWord)
    requires w < Pow256(32)
    ensures TrieWord(map[k := WordBytes(w)], k) == w
  {
    if w > 0 {
      var b := BigEndian(w);
      BigEndianLength(w, 32);
      BigEndianValue(w);
      assert Encode(Str(b)) + [] == Encode(Str(b));
      ShortEncoding(b);
      SplitEncoded(Str(b), []);
    }
  }

  lemma ShortEncoding(b: Bytes)
    requires |b| <= 32
    ensures |Encode(Str(b))| < LIMIT
  {
  }

  // ----- Every history of accesses

  datatype Access =
    | LoadWord(k: Hash)
    | StoreWord(k: Hash, w: StorageWord)
    | LoadBytes(k: Hash)
    | StoreBytes(k: Hash, b: Bytes)
    | UpdateTrie

  /** GetState, SetState, GetPDXState, SetPDXState and updateTrie of one object. */
  function Step(o: Object, x: Access): (o': Object)
  {
    match x
    case LoadWord(k) => o.(cached := o.cached[k := ReadWord(o, k)])
    case StoreWord(k, w) => o.(cached := o.cached[k := w], dirty := o.dirty[k := w])
    case LoadBytes(_) => o
    case StoreBytes(k, b) => o.(pdxCached := o.pdxCached[k := b], pdxDirty := o.pdxDirty[k := b])
    case UpdateTrie => Flushed(o)
  }

  function Run(o: Object, xs: seq<Access>): (o': Object)
  {
    if xs == [] then o else Step(Run(o, xs[..|xs| - 1]), xs[|xs| - 1])
  }

  lemma RunSnoc(o: Object, xs: seq<Access>, x: Access)
    ensures Run(o, xs + [x]) == Step(Run(o, xs), x)
  {
    assert (xs + [x])[..|xs|] == xs;
  }

  /** Words are 32 bytes and a raw key is never used as a word key. */
  ghost predicate Allowed(x: Access, raw: iset<Hash>)
  {
    match x
    case LoadWord(k) => k !in raw
    case StoreWord(k, w) => k !in raw && w < Pow256(32)
    case LoadBytes(k) => k in raw
    case StoreBytes(k, _) => k in raw
    case UpdateTrie => true
  }

  /** The plain map: the last write to a key, else what it held at first. */
  function LastWord(xs: seq<Access>, k: Hash, first: StorageWord): (w: StorageWord)
  {
    if xs == [] then first
    else
      var x := xs[|xs| - 1];
      if x.StoreWord? && x.k == k then x.w else LastWord(xs[..|xs| - 1], k, first)
  }

  function LastBytes(xs: seq<Access>, k: Hash, first: Bytes): (b: Bytes)
  {
    if xs == [] then first
    else
      var x := xs[|xs| - 1];
      if x.StoreBytes? && x.k == k then x.b else LastBytes(xs[..|xs| - 1], k, first)
  }

  /** Each cache holds its own keys and what it has not to write back agrees with the trie. */
  ghost predicate Coherent(o: Object, raw: iset<Hash>)
  {
    && (forall k :: k in o.dirty ==> k in o.cached && o.dirty[k] == o.cached[k] < Pow256(32))
    && (forall k :: k in o.cached ==> k !in raw && (k in o.dirty || o.cached[k] == TrieWord(o.trie, k)))
    && (forall k :: k in o.pdxDirty ==> k in o.pdxCached && o.pdxDirty[k] == o.pdxCached[k])
    && (forall k :: k in o.pdxCached ==> k in raw && (k in o.pdxDirty || o.pdxCached[k] == TrieBytes(o.trie, k)))
  }

  /** After updateTrie the trie alone answers every read as the caches did. */
  lemma FlushedReads(o: Object, raw: iset<Hash>, k: Hash)
    requires Coherent(o, raw)
    ensures k !in raw ==> TrieWord(Flushed(o).trie, k) == ReadWord(o, k)
    ensures k in raw ==> TrieBytes(Flushed(o).trie, k) == ReadPdx(o, k)
  {
    hide TrieWord, TrieBytes, Flush, WordBytes;
    var t1 := Flush(o.trie, Pending(o.dirty));
    FlushReads(o.trie, Pending(o.dirty), k);
    FlushReads(t1, o.pdxDirty, k);
    if k in o.dirty {
      StoredReads(k, o.dirty[k]);
    }
  }

  lemma FlushKeeps(o: Object, raw: iset<Hash>)
    requires Coherent(o, raw)
    ensures Coherent(Flushed(o), raw)
  {
    var o' := Flushed(o);
    forall k
      ensures k in o'.cached ==> o'.cached[k] == TrieWord(o'.trie, k)
      ensures k in o'.pdxCached ==> o'.pdxCached[k] == TrieBytes(o'.trie, k)
    {
      FlushedReads(o, raw, k);
    }
  }

  lemma StepKeeps(o: Object, x: Access, raw: iset<Hash>)
    requires Coherent(o, raw) && Allowed(x, raw)
    ensures Coherent(Step(o, x), raw)
  {
    hide TrieWord, TrieBytes, Flushed, Pow256;
    if x.UpdateTrie? {
      FlushKeeps(o, raw);
    }
  }

  lemma StepReads(o: Object, x: Access, raw: iset<Hash>, k: Hash)
    requires Coherent(o, raw) && Allowed(x, raw)
    ensures k !in raw ==> ReadWord(Step(o, x), k) == if x.StoreWord? && x.k == k then x.w else ReadWord(o, k)
    ensures k in raw ==> ReadPdx(Step(o, x), k) == if x.StoreBytes? && x.k == k then x.b else ReadPdx(o, k)
  {
    hide TrieWord, TrieBytes, Flush, Pending, Pow256, Coherent;
    if x.UpdateTrie? {
      FlushedReads(o, raw, k);
    }
  }

  lemma {:induction false} RunKeeps(o: Object, xs: seq<Access>, raw: iset<Hash>, k: Hash)
    requires Coherent(o, raw) && forall x :: x in xs ==> Allowed(x, raw)
    ensures Coherent(Run(o, xs), raw)
    ensures k !in raw ==> ReadWord(Run(o, xs), k) == LastWord(xs, k, ReadWord(o, k))
    ensures k in raw ==> ReadPdx(Run(o, xs), k) == LastBytes(xs, k, ReadPdx(o, k))
  {
    hide Coherent, Step, ReadWord, ReadPdx, Allowed;
    if xs != [] {
      var n := |xs| - 1;
      assert xs[n] in xs;
      RunKeeps(o, xs[..n], raw, k);
      StepKeeps(Run(o, xs[..n]), xs[n], raw);
      StepReads(Run(o, xs[..n]), xs[n], raw, k);
    }
  }

  lemma NewReads(db: Db, a: Address, acc: Account, raw: iset<Hash>, k: Hash)
    ensures var o := NewObject(db, a, acc);
            Coherent(o, raw) && ReadWord(o, k) == TrieWord(o.trie, k) && ReadPdx(o, k) == TrieBytes(o.trie, k)
  {
    hide TrieWord, TrieBytes;
  }

  /** Over every history of a new object the caches read as a plain map; after a final
      updateTrie so does the trie by itself, and nothing is left to write. */
  lemma StorageIsAMap(db: Db, a: Address, acc: Account, xs: seq<Access>, raw: iset<Hash>, k: Hash)
    requires forall x :: x in xs ==> Allowed(x, raw)
    ensures var first := NewObject(db, a, acc);
            var last := Run(first, xs);
            var flushed := Run(first, xs + [UpdateTrie]);
            && (k !in raw ==>
                  && ReadWord(last, k) == LastWord(xs, k, TrieWord(first.trie, k))
                  && TrieWord(flushed.trie, k) == ReadWord(last, k))
            && (k in raw ==>
                  && ReadPdx(last, k) == LastBytes(xs, k, TrieBytes(first.trie, k))
                  && TrieBytes(flushed.trie, k) == ReadPdx(last, k))
            && flushed.dirty == map[] && flushed.pdxDirty == map[]
  {
    var first := NewObject(db, a, acc);
    NewReads(db, a, acc, raw, k);
    hide TrieWord, TrieBytes, ReadWord, ReadPdx, Coherent, NewObject, Allowed, LastWord, LastBytes;
    RunKeeps(first, xs, raw, k);
    FlushedReads(Run(first, xs), raw, k);
    RunSnoc(first, xs, UpdateTrie);
  }

  // ----- When it holds

  /** The callers use `words` as word keys and `raw` as raw keys. */
  ghost predicate KeepsTo(x: Access, words: iset<Hash>, raw: iset<Hash>)
  {
    match x
    case LoadWord(k) => k in words
    case StoreWord(k, w) => k in words && w < Pow256(32)
    case LoadBytes(k) => k in raw
    case StoreBytes(k, _) => k in raw
    case UpdateTrie => true
  }

  ghost predicate AllKeepTo(xs: seq<Access>, words: iset<Hash>, raw: iset<Hash>)
  {
    forall x :: x in xs ==> KeepsTo(x, words, raw)
  }

  /** The caches answer as a plain map, and the flushed trie answers as the caches. */
  ghost predicate WordRight(first: Object, xs: seq<Access>, k: Hash)
  {
    var last := Run(first, xs);
    ReadWord(last, k) == LastWord(xs, k, TrieWord(first.trie, k)) && TrieWord(Flushed(last).trie, k) == ReadWord(last, k)
  }

  ghost predicate BytesRight(first: Object, xs: seq<Access>, k: Hash)
  {
    var last := Run(first, xs);
    ReadPdx(last, k) == LastBytes(xs, k, TrieBytes(first.trie, k)) && TrieBytes(Flushed(last).trie, k) == ReadPdx(last, k)
  }

  ghost predicate ReadsRight(first: Object, xs: seq<Access>, words: iset<Hash>, raw: iset<Hash>)
  {
    (forall k :: k in words ==> WordRight(first, xs, k)) && (forall k :: k in raw ==> BytesRight(first, xs, k))
  }

  /** Every history of a new object reads right if and only if no key is used both ways. */
  lemma StorageIff(db: Db, a: Address, acc: Account, words: iset<Hash>, raw: iset<Hash>)
    ensures (forall xs :: AllKeepTo(xs, words, raw) ==> ReadsRight(NewObject(db, a, acc), xs, words, raw))
       <==> (forall k :: k in words ==> k !in raw)
  {
    var first := NewObject(db, a, acc);
    hide ReadsRight, AllKeepTo, NewObject;
    if forall k :: k in words ==> k !in raw {
      forall xs | AllKeepTo(xs, words, raw)
        ensures ReadsRight(first, xs, words, raw)
      {
        DisjointReadsRight(db, a, acc, xs, words, raw);
      }
    } else {
      var k :| k in words && k in raw;
      SharedReadsWrong(db, a, acc, words, raw, k);
    }
  }

  lemma DisjointReadsRight(db: Db, a: Address, acc: Account, xs: seq<Access>, words: iset<Hash>, raw: iset<Hash>)
    requires AllKeepTo(xs, words, raw) && forall k :: k in words ==> k !in raw
    ensures ReadsRight(NewObject(db, a, acc), xs, words, raw)
  {
    forall x | x in xs
      ensures Allowed(x, raw)
    {
      assert KeepsTo(x, words, raw);
    }
    hide AllKeepTo, Allowed, NewObject, WordRight, BytesRight;
    var first := NewObject(db, a, acc);
    forall k | k in words
      ensures WordRight(first, xs, k)
    {
      KeyReadsRight(db, a, acc, xs, raw, k);
    }
    forall k | k in raw
      ensures BytesRight(first, xs, k)
    {
      KeyReadsRight(db, a, acc, xs, raw, k);
    }
  }

  lemma KeyReadsRight(db: Db, a: Address, acc: Account, xs: seq<Access>, raw: iset<Hash>, k: Hash)
    requires forall x :: x in xs ==> Allowed(x, raw)
    ensures if k in raw then BytesRight(NewObject(db, a, acc), xs, k) else WordRight(NewObject(db, a, acc), xs, k)
  {
    hide Allowed, NewObject, ReadWord, ReadPdx, TrieWord, TrieBytes, LastWord, LastBytes, Flushed;
    StorageIsAMap(db, a, acc, xs, raw, k);
    RunSnoc(NewObject(db, a, acc), xs, UpdateTrie);
  }

  /** For every shared key there is a history that reads wrong. */
  lemma SharedReadsWrong(db: Db, a: Address, acc: Account, words: iset<Hash>, raw: iset<Hash>, k: Hash)
    requires k in words && k in raw
    ensures var xs := [StoreWord(k, 5), StoreBytes(k, [9])];
            AllKeepTo(xs, words, raw) && !ReadsRight(NewObject(db, a, acc), xs, words, raw)
  {
    var x, y := StoreWord(k, 5), StoreBytes(k, [9]);
    assert KeepsTo(x, words, raw) && KeepsTo(y, words, raw) by { SmallWord(); }
    SharedKeyGoesStale(NewObject(db, a, acc), k);
    hide ReadWord, TrieWord, Flushed, Run, NewObject;
  }

  lemma SmallWord()
    ensures 5 < Pow256(32)
  {
    var k: nat := 32;
    Pow256Monotone(1, k);
    assert Pow256(1) == 256;
  }

  /** The raw bytes win in the trie and the word cache goes stale. */
  lemma SharedKeyGoesStale(o: Object, k: Hash)
    ensures var last := Run(o, [StoreWord(k, 5), StoreBytes(k, [9])]);
            ReadWord(last, k) == 5 && TrieWord(Flushed(last).trie, k) == 9
  {
    var x, y := StoreWord(k, 5), StoreBytes(k, [9]);
    assert [x, y][..1] == [x] && [x][..0] == [];
    var last := Step(Step(o, x), y);
    assert Run(o, [x]) == Step(o, x);
    assert Run(o, [x, y]) == last;
    FlushReads(Flush(last.trie, Pending(last.dirty)), last.pdxDirty, k);
    assert BigEndian(9) == [9] by { assert BigEndian(9 / 256) == []; }
    assert WordBytes(9) == [9];
    NineReads(k);
  }

  lemma NineReads(k: Hash)
    ensures TrieWord(map[k := [9]], k) == 9
  {
    assert BigEndian(9) == [9] by { assert BigEndian(9 / 256) == []; }
    assert Stored(9) == [9];
    SmallWord();
    StoredReads(k, 9);
  }
}
