/** What each call does to what the getters answer, and all calls together: the state
    with its journal behaves as a world that is copied at every snapshot. */
module StateLaws {
  import opened Wrappers
  import opened StateSpec
  import opened StateJournal

  // ----- One call

  /** What the getters say of an account, its storage at one key. */
  datatype Answers = Answers(exist: bool, balance: int, nonce: nat, codeHash: Hash, code: Option<Bytes>,
                             word: StorageWord, raw: Bytes, suicided: bool)

  function Ask(db: Db, s: State, a: Address, k: Hash): (r: Answers)
  {
    Answers(Exist(db, s, a), GetBalance(db, s, a), GetNonce(db, s, a), GetCodeHash(db, s, a), GetCode(db, s, a),
            GetState(db, s, a, k), GetPDXState(db, s, a, k), HasSuicided(db, s, a))
  }

  /** What the getters say of a live object. */
  function Of(db: Db, o: Object, k: Hash): (r: Answers)
  {
    Answers(true, o.balance, o.nonce, o.codeHash, ReadCode(db, o), ReadWord(o, k), ReadPdx(o, k), o.suicided)
  }

  /** A setter makes an account that is not there, which only its code hash shows. */
  function Born(r: Answers): (r': Answers)
  {
    if r.exist then r else r.(exist := true, codeHash := EMPTY_CODE)
  }

  /** Every getter of the other accounts answers as before, and so do the counter and the preimages. */
  ghost predicate SameElsewhere(db: Db, s: State, t: State, a: Address)
  {
    && (forall b, k :: b != a ==> Ask(db, t, b, k) == Ask(db, s, b, k))
    && t.refund == s.refund && t.preimages == s.preimages
  }

  /** Objects are stored under their address. */
  ghost predicate Filed(s: State)
  {
    forall a :: a in s.objects ==> s.objects[a].address == a
  }

  /** The two remaining getters follow from the others. */
  lemma DerivedGetters(db: Db, s: State, a: Address, k: Hash)
    ensures var r := Ask(db, s, a, k);
            && (Empty(db, s, a) <==> !r.exist || (r.nonce == 0 && r.balance == 0 && r.codeHash == EMPTY_CODE))
            && GetCodeSize(db, s, a) == (if r.codeHash in db.codes then |db.codes[r.codeHash]| else 0)
            && (!r.exist ==> r == Answers(false, 0, 0, 0, None, 0, [], false))
  {
  }

  lemma Placed(db: Db, s: State, t: State, o: Object)
    requires t.objects == s.objects[o.address := o] && t.refund == s.refund && t.preimages == s.preimages
    ensures SameElsewhere(db, s, t, o.address) && Live(db, t, o.address) == if o.deleted then None else Some(o)
  {
    hide ReadCode, ReadWord, ReadPdx;
  }

  lemma SameTrans(db: Db, s: State, t: State, u: State, a: Address)
    requires SameElsewhere(db, s, t, a) && SameElsewhere(db, t, u, a)
    ensures SameElsewhere(db, s, u, a)
  {
    hide Ask;
  }

  lemma Loaded(db: Db, s: State, a: Address)
    requires Filed(s)
    ensures Filed(Load(db, s, a)) && SameElsewhere(db, s, Load(db, s, a), a)
    ensures forall k :: Ask(db, Load(db, s, a), a, k) == Ask(db, s, a, k)
    ensures Live(db, Load(db, s, a), a) == Live(db, s, a)
  {
    hide ReadCode, ReadWord, ReadPdx;
  }

  lemma Made(db: Db, s: State, a: Address)
    requires Filed(s)
    ensures var s1 := GetOrNew(db, s, a);
            && Filed(s1) && SameElsewhere(db, s, s1, a)
            && a in s1.objects && Live(db, s1, a) == Some(s1.objects[a]) && s1.objects[a].address == a
            && !s1.objects[a].deleted
            && forall k :: Ask(db, s1, a, k) == Born(Ask(db, s, a, k))
  {
    Loaded(db, s, a);
    if Live(db, s, a).None? {
      Created(db, s, a);
      hide GetOrNew;
      hide Create;
    }
  }

  lemma Created(db: Db, s: State, a: Address)
    requires Filed(s)
    ensures var s1, o := Create(db, s, a), NewObject(db, a, EmptyAccount());
            && Filed(s1) && SameElsewhere(db, s, s1, a) && a in s1.objects && s1.objects[a] == o
            && Live(db, s1, a) == Some(o)
            && forall k :: Ask(db, s1, a, k) == Answers(true, 0, 0, EMPTY_CODE, None, 0, [], false)
  {
    Loaded(db, s, a);
    var o := NewObject(db, a, EmptyAccount());
    Placed(db, Load(db, s, a), Create(db, s, a), o);
    SameTrans(db, s, Load(db, s, a), Create(db, s, a), a);
    assert o.trie == map[];
    hide Load, Live;
  }

  /** A journaled write to the object that GetOrNewStateObject returned. */
  lemma Put(db: Db, s: State, a: Address, e: Entry, o: Object, k: Hash)
    requires Filed(s) && o.address == a && !o.deleted
    ensures var s1 := GetOrNew(db, s, a);
            && s1.objects[a].address == a && !s1.objects[a].deleted && Of(db, s1.objects[a], k) == Born(Ask(db, s, a, k))
    ensures var t := JournalObject(GetOrNew(db, s, a), e, o);
            Filed(t) && SameElsewhere(db, s, t, a) && Ask(db, t, a, k) == Of(db, o, k)
  {
    hide GetOrNew, SameElsewhere, ReadCode, ReadWord, ReadPdx, Live, Born;
    Made(db, s, a);
    var s1 := GetOrNew(db, s, a);
    assert Ask(db, s1, a, k) == Born(Ask(db, s, a, k));
    Placed(db, s1, JournalObject(s1, e, o), o);
    SameTrans(db, s, s1, JournalObject(s1, e, o), a);
  }

  /** Touching an object shows in no getter, and doing nothing does neither. */
  lemma Untouched(db: Db, s: State, a: Address, k: Hash)
    requires Filed(s)
    ensures var s1 := GetOrNew(db, s, a);
            && Ask(db, s1, a, k) == Born(Ask(db, s, a, k)) == Ask(db, Touch(s1, a), a, k)
            && SameElsewhere(db, s, s1, a) && SameElsewhere(db, s, Touch(s1, a), a)
            && Filed(s1) && Filed(Touch(s1, a))
  {
    hide GetOrNew, Born;
    Made(db, s, a);
    TouchShowsNothing(db, GetOrNew(db, s, a), a);
    hide SameElsewhere, Ask;
    SameTrans(db, s, GetOrNew(db, s, a), Touch(GetOrNew(db, s, a), a), a);
  }

  lemma TouchShowsNothing(db: Db, s: State, a: Address)
    requires Filed(s)
    ensures Filed(Touch(s, a)) && SameElsewhere(db, s, Touch(s, a), a)
    ensures forall k :: Ask(db, Touch(s, a), a, k) == Ask(db, s, a, k)
  {
    hide ReadCode, ReadWord, ReadPdx;
  }

  /** A call does this to its account and nothing to any other. */
  ghost predicate Turns(db: Db, s: State, op: Op, a: Address, k: Hash, r: Answers)
  {
    var t := Step(db, s, op);
    t.Some? && Ask(db, t.value, a, k) == r && SameElsewhere(db, s, t.value, a) && Filed(t.value)
  }

  lemma BornBalance(db: Db, s: State, a: Address, k: Hash)
    requires Filed(s)
    ensures var o := GetOrNew(db, s, a).objects[a];
            o.address == a && !o.deleted && o.balance == GetBalance(db, s, a) == Born(Ask(db, s, a, k)).balance
  {
    hide GetOrNew;
    Made(db, s, a);
    assert Ask(db, GetOrNew(db, s, a), a, k) == Born(Ask(db, s, a, k));
  }

  lemma BornStorage(db: Db, s: State, a: Address, k: Hash)
    ensures var r := Born(Ask(db, s, a, k)); r.word == GetState(db, s, a, k) && r.raw == GetPDXState(db, s, a, k)
  {
    hide Live;
  }

  /** Balances: added to, taken from, or set; every other getter answers as before. */
  lemma AddLaw(db: Db, s: State, a: Address, v: int, k: Hash)
    requires Filed(s)
    ensures Turns(db, s, OpAddBalance(a, v), a, k, Born(Ask(db, s, a, k)).(balance := GetBalance(db, s, a) + v))
  {
    hide GetOrNew, Live, Born, Filed, JournalObject, Touch, Ask, SameElsewhere, IsEmpty, GetBalance, TrieWord, TrieBytes;
    var o, r := GetOrNew(db, s, a).objects[a], Born(Ask(db, s, a, k));
    BornBalance(db, s, a, k);
    Untouched(db, s, a, k);
    assert r.(balance := r.balance) == r;
    Put(db, s, a, BalanceChange(a, o.balance), o.(balance := GetBalance(db, s, a) + v), k);
  }

  lemma SubLaw(db: Db, s: State, a: Address, v: int, k: Hash)
    requires Filed(s)
    ensures Turns(db, s, OpSubBalance(a, v), a, k, Born(Ask(db, s, a, k)).(balance := GetBalance(db, s, a) - v))
  {
    hide GetOrNew, Live, Born, Filed, JournalObject, Touch, Ask, SameElsewhere, IsEmpty, GetBalance, TrieWord, TrieBytes;
    var o, r := GetOrNew(db, s, a).objects[a], Born(Ask(db, s, a, k));
    BornBalance(db, s, a, k);
    Untouched(db, s, a, k);
    assert r.(balance := r.balance) == r;
    Put(db, s, a, BalanceChange(a, o.balance), o.(balance := GetBalance(db, s, a) - v), k);
  }

  lemma SetLaw(db: Db, s: State, a: Address, v: int, k: Hash)
    requires Filed(s)
    ensures Turns(db, s, OpSetBalance(a, v), a, k, Born(Ask(db, s, a, k)).(balance := v))
  {
    hide GetOrNew, Live, Born, Filed, JournalObject, Touch, Ask, SameElsewhere, IsEmpty, GetBalance, TrieWord, TrieBytes;
    var o, r := GetOrNew(db, s, a).objects[a], Born(Ask(db, s, a, k));
    BornBalance(db, s, a, k);
    Put(db, s, a, BalanceChange(a, o.balance), o.(balance := v), k);
  }

  lemma NonceLaw(db: Db, s: State, a: Address, n: nat, k: Hash)
    requires Filed(s)
    ensures Turns(db, s, OpSetNonce(a, n), a, k, Born(Ask(db, s, a, k)).(nonce := n))
  {
    hide GetOrNew, Live, Born, Filed, JournalObject, Touch, Ask, SameElsewhere, IsEmpty, GetBalance, TrieWord, TrieBytes;
    var o := GetOrNew(db, s, a).objects[a];
    BornBalance(db, s, a, k);
    Put(db, s, a, NonceChange(a, o.nonce), o.(nonce := n), k);
  }

  lemma CodeLaw(db: Db, s: State, a: Address, c: Bytes, k: Hash)
    requires Filed(s)
    ensures Turns(db, s, OpSetCode(a, c), a, k, Born(Ask(db, s, a, k)).(code := Some(c), codeHash := db.hashOf(c)))
  {
    hide GetOrNew, Live, Born, Filed, JournalObject, Touch, Ask, SameElsewhere, IsEmpty, GetBalance, TrieWord, TrieBytes;
    var o := GetOrNew(db, s, a).objects[a];
    BornBalance(db, s, a, k);
    Put(db, s, a, CodeChange(a, ReadCode(db, o), o.codeHash),
        o.(code := Some(c), codeHash := db.hashOf(c), dirtyCode := true), k);
  }

  /** A word is the one set, and those under the other keys are as they were. */
  lemma WordLaw(db: Db, s: State, a: Address, j: Hash, w: StorageWord, k: Hash)
    requires Filed(s)
    ensures Turns(db, s, OpSetState(a, j, w), a, k,
                  Born(Ask(db, s, a, k)).(word := if k == j then w else GetState(db, s, a, k)))
  {
    hide GetOrNew, Live, Born, Filed, JournalObject, Touch, Ask, SameElsewhere, IsEmpty, GetBalance, TrieWord, TrieBytes;
    var o := GetOrNew(db, s, a).objects[a];
    BornBalance(db, s, a, k);
    Put(db, s, a, StorageChange(a, j, ReadWord(o, j)), o.(cached := o.cached[j := w], dirty := o.dirty[j := w]), k);
    BornStorage(db, s, a, k);
  }

  lemma RawLaw(db: Db, s: State, a: Address, j: Hash, b: Bytes, k: Hash)
    requires Filed(s)
    ensures Turns(db, s, OpSetPdx(a, j, b), a, k,
                  Born(Ask(db, s, a, k)).(raw := if k == j then b else GetPDXState(db, s, a, k)))
  {
    hide GetOrNew, Live, Born, Filed, JournalObject, Touch, Ask, SameElsewhere, IsEmpty, GetBalance, TrieWord, TrieBytes;
    var o := GetOrNew(db, s, a).objects[a];
    BornBalance(db, s, a, k);
    Put(db, s, a, PdxStorageChange(a, j, ReadPdx(o, j)), o.(pdxCached := o.pdxCached[j := b], pdxDirty := o.pdxDirty[j := b]), k);
    BornStorage(db, s, a, k);
  }

  /** A suicide empties the account and marks it; code, nonce and storage still answer. */
  lemma SuicideLaw(db: Db, s: State, a: Address, k: Hash)
    requires Filed(s)
    ensures Turns(db, s, OpSuicide(a), a, k,
                  if Exist(db, s, a) then Ask(db, s, a, k).(balance := 0, suicided := true) else Ask(db, s, a, k))
  {
    Loaded(db, s, a);
    var l := Load(db, s, a);
    var x := Live(db, s, a);
    assert Ask(db, l, a, k) == Ask(db, s, a, k);
    if x.Some? {
      var o := x.value.(suicided := true, balance := 0);
      Placed(db, l, Suicide(db, s, a), o);
      SameTrans(db, s, l, Suicide(db, s, a), a);
    }
  }

  lemma SuicideShows(db: Db, s: State, a: Address)
    requires Filed(s)
    ensures var t := Suicide(db, s, a);
            SameElsewhere(db, s, t, a) && (Live(db, s, a).Some? ==> GetBalance(db, t, a) == 0 && HasSuicided(db, t, a))
  {
    hide SameElsewhere, Suicide;
    SuicideLaw(db, s, a, 0);
  }

  /** A created account is new but for the balance of the one it replaces. */
  lemma CreateLaw(db: Db, s: State, a: Address, k: Hash)
    requires Filed(s)
    ensures Turns(db, s, OpCreateAccount(a), a, k, Answers(true, GetBalance(db, s, a), 0, EMPTY_CODE, None, 0, [], false))
  {
    Created(db, s, a);
    var s1, x := Create(db, s, a), Live(db, s, a);
    assert Ask(db, s1, a, k) == Answers(true, 0, 0, EMPTY_CODE, None, 0, [], false);
    if x.Some? {
      var o := NewObject(db, a, EmptyAccount()).(balance := x.value.balance);
      Placed(db, s1, CreateAccount(db, s, a), o);
      SameTrans(db, s, s1, CreateAccount(db, s, a), a);
    }
  }

  /** Nothing that a getter says changes. */
  ghost predicate SameAnswers(db: Db, s: State, t: State)
  {
    forall a, k :: Ask(db, t, a, k) == Ask(db, s, a, k)
  }

  lemma RefundLaw(db: Db, s: State, gas: nat)
    ensures var t := Step(db, s, OpAddRefund(gas));
            && t.Some? && t.value.refund == (s.refund + gas) % 0x1_0000_0000_0000_0000
            && t.value.preimages == s.preimages && SameAnswers(db, s, t.value)
  {
    hide ReadCode, ReadWord, ReadPdx;
  }

  lemma PreimageLaw(db: Db, s: State, h: Hash, b: Bytes)
    ensures var t := Step(db, s, OpAddPreimage(h, b));
            && t.Some? && t.value.preimages == (if h in s.preimages then s.preimages else s.preimages[h := b])
            && t.value.refund == s.refund && SameAnswers(db, s, t.value)
  {
    hide ReadCode, ReadWord, ReadPdx;
  }

  /** Reading and taking a snapshot change no answer. */
  lemma ReadLaw(db: Db, s: State, op: Op)
    requires WellFormed(db, s) && (op.OpRead? || op.OpReadState? || op.OpReadCode? || op.OpSnapshot?)
    ensures var t := Step(db, s, op);
            && t.Some? && t.value.refund == s.refund && t.value.preimages == s.preimages && SameAnswers(db, s, t.value)
  {
    match op
    case OpRead(a) => LoadKeepsView(db, s, a); SameViewAnswers(db, s, Load(db, s, a));
    case OpReadState(a, k) =>
      var o := Live(db, s, a);
      if o.Some? {
        StorageUndone(db, o.value, k, 0);
        CacheQuiet(db, s, a, o.value, o.value.(cached := o.value.cached[k := ReadWord(o.value, k)]));
        SameViewAnswers(db, s, CacheWord(db, s, a, k));
      }
    case OpReadCode(a) =>
      var o := Live(db, s, a);
      if o.Some? {
        CodeCached(db, o.value);
        CacheQuiet(db, s, a, o.value, o.value.(code := ReadCode(db, o.value)));
        SameViewAnswers(db, s, CacheCode(db, s, a));
      }
    case OpSnapshot => ViewRefl(db, s, Snapshot(s)); SameViewAnswers(db, s, Snapshot(s));
  }

  lemma SameViewAnswers(db: Db, s: State, t: State)
    requires SameView(db, s, t)
    ensures SameAnswers(db, s, t) && t.refund == s.refund && t.preimages == s.preimages
  {
    forall a, k
      ensures Ask(db, t, a, k) == Ask(db, s, a, k)
    {
      ViewDecidesGetters(db, s, t, a, k);
    }
  }
}
