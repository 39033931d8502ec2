/** The whole interface against the simplest state that could have it: a world of plain
    records that is copied at every snapshot and put back by a revert. No live objects,
    no journal, no caches. */
module StateLedger {
  import opened Wrappers
  import opened StateSpec
  import opened StateJournal
  import opened StateLaws

  datatype Record = Record(balance: int, nonce: nat, codeHash: Hash, code: Option<Bytes>,
                           word: Hash -> StorageWord, raw: Hash -> Bytes, suicided: bool)

  datatype World = World(accounts: Address -> Option<Record>, refund: nat, preimages: map<Hash, Bytes>)

  /** The world now, the copies that snapshots took, oldest first, and the next id. */
  datatype Ledger = Ledger(now: World, copies: seq<(nat, World)>, nextId: nat)

  function Blank(): (r: Record)
  {
    Record(0, 0, EMPTY_CODE, None, _ => 0, _ => [], false)
  }

  /** The record of an account in the database. */
  function Stored(db: Db, acc: Account): (r: Record)
  {
    var t := TrieAt(db, acc.root);
    Record(acc.balance, acc.nonce, acc.codeHash,
           if acc.codeHash == EMPTY_CODE then None
           else Some(if acc.codeHash in db.codes then db.codes[acc.codeHash] else []),
           k => TrieWord(t, k), k => TrieBytes(t, k), false)
  }

  function Genesis(db: Db): (l: Ledger)
  {
    Ledger(World(a => if a in db.accounts then Some(Stored(db, db.accounts[a])) else None, 0, map[]), [], 0)
  }

  function RecordOf(w: World, a: Address): (r: Record)
  {
    if w.accounts(a).Some? then w.accounts(a).value else Blank()
  }

  function Keep(l: Ledger, a: Address, r: Record): (l': Ledger)
  {
    l.(now := l.now.(accounts := (b: Address) => if b == a then Some(r) else l.now.accounts(b)))
  }

  function Copied(copies: seq<(nat, World)>, id: nat): (i: nat)
    ensures i <= |copies| && (i < |copies| ==> copies[i].0 == id)
    ensures forall j :: 0 <= j < i ==> copies[j].0 != id
  {
    if copies == [] || copies[0].0 == id then 0 else 1 + Copied(copies[1..], id)
  }

  /** One call; None is a panic. */
  function Perform(l: Ledger, hashOf: Bytes -> Hash, op: Op): (l': Option<Ledger>)
  {
    match op
    case OpRead(_) => Some(l)
    case OpReadState(_, _) => Some(l)
    case OpReadCode(_) => Some(l)
    case OpCreateAccount(a) => Some(Keep(l, a, Blank().(balance := RecordOf(l.now, a).balance)))
    case OpAddBalance(a, v) => var r := RecordOf(l.now, a); Some(Keep(l, a, r.(balance := r.balance + v)))
    case OpSubBalance(a, v) => var r := RecordOf(l.now, a); Some(Keep(l, a, r.(balance := r.balance - v)))
    case OpSetBalance(a, v) => Some(Keep(l, a, RecordOf(l.now, a).(balance := v)))
    case OpSetNonce(a, n) => Some(Keep(l, a, RecordOf(l.now, a).(nonce := n)))
    case OpSetCode(a, c) => Some(Keep(l, a, RecordOf(l.now, a).(code := Some(c), codeHash := hashOf(c))))
    case OpSetState(a, k, w) =>
      var r := RecordOf(l.now, a);
      Some(Keep(l, a, r.(word := j => if j == k then w else r.word(j))))
    case OpSetPdx(a, k, b) =>
      var r := RecordOf(l.now, a);
      Some(Keep(l, a, r.(raw := j => if j == k then b else r.raw(j))))
    case OpSuicide(a) =>
      if l.now.accounts(a).None? then Some(l)
      else Some(Keep(l, a, RecordOf(l.now, a).(balance := 0, suicided := true)))
    case OpAddRefund(gas) => Some(l.(now := l.now.(refund := (l.now.refund + gas) % 0x1_0000_0000_0000_0000)))
    case OpAddPreimage(h, b) =>
      if h in l.now.preimages then Some(l) else Some(l.(now := l.now.(preimages := l.now.preimages[h := b])))
    case OpSnapshot => Some(l.(copies := l.copies + [(l.nextId, l.now)], nextId := l.nextId + 1))
    case OpRevert(id) =>
      var i := Copied(l.copies, id);
      if i == |l.copies| then None else Some(l.(now := l.copies[i].1, copies := l.copies[..i]))
  }

  function Play(l: Ledger, hashOf: Bytes -> Hash, ops: seq<Op>): (l': Option<Ledger>)
    decreases |ops|
  {
    if ops == [] then Some(l)
    else
      var l' := Perform(l, hashOf, ops[0]);
      if l'.None? then None else Play(l'.value, hashOf, ops[1..])
  }

  // ----- The state shows the world

  function Told(w: World, a: Address, k: Hash): (r: Answers)
  {
    match w.accounts(a)
    case None => Answers(false, 0, 0, 0, None, 0, [], false)
    case Some(r) => Answers(true, r.balance, r.nonce, r.codeHash, r.code, r.word(k), r.raw(k), r.suicided)
  }

  /** Every getter answers from the world. */
  ghost predicate Shows(db: Db, s: State, w: World)
  {
    (forall a, k :: Ask(db, s, a, k) == Told(w, a, k)) && s.refund == w.refund && s.preimages == w.preimages
  }

  lemma ShowsAfter(db: Db, s: State, t: State, w: World, w': World, a: Address)
    requires Shows(db, s, w) && SameElsewhere(db, s, t, a)
    requires w'.refund == w.refund && w'.preimages == w.preimages && forall b :: b != a ==> w'.accounts(b) == w.accounts(b)
    requires forall k :: Ask(db, t, a, k) == Told(w', a, k)
    ensures Shows(db, t, w')
  {
    hide Ask;
    forall b, k
      ensures Ask(db, t, b, k) == Told(w', b, k)
    {
      if b != a {
        assert Ask(db, t, b, k) == Ask(db, s, b, k) == Told(w, b, k);
      }
    }
  }

  /** A call on one account turns its answers into those of the new record. */
  lemma AccountTurns(db: Db, s: State, l: Ledger, op: Op, k: Hash)
    requires Filed(s) && Shows(db, s, l.now) && (IsSetter(op) || op.OpSuicide? || op.OpCreateAccount?)
    ensures var l' := Perform(l, db.hashOf, op);
            l'.Some? && Turns(db, s, op, op.a, k, Told(l'.value.now, op.a, k))
  {
    hide Step, Live, Turns, SameElsewhere, ReadCode, ReadWord, ReadPdx;
    var a := op.a;
    assert Ask(db, s, a, k) == Told(l.now, a, k);
    match op
    case OpAddBalance(_, v) => AddLaw(db, s, a, v, k);
    case OpSubBalance(_, v) => SubLaw(db, s, a, v, k);
    case OpSetBalance(_, v) => SetLaw(db, s, a, v, k);
    case OpSetNonce(_, n) => NonceLaw(db, s, a, n, k);
    case OpSetCode(_, c) => CodeLaw(db, s, a, c, k);
    case OpSetState(_, j, w) => WordLaw(db, s, a, j, w, k);
    case OpSetPdx(_, j, b) => RawLaw(db, s, a, j, b, k);
    case OpSuicide(_) => SuicideLaw(db, s, a, k);
    case OpCreateAccount(_) => CreateLaw(db, s, a, k);
  }

  lemma AccountShows(db: Db, s: State, l: Ledger, op: Op)
    requires Filed(s) && Shows(db, s, l.now) && (IsSetter(op) || op.OpSuicide? || op.OpCreateAccount?)
    ensures var t, l' := Step(db, s, op), Perform(l, db.hashOf, op);
            t.Some? && l'.Some? && Shows(db, t.value, l'.value.now)
  {
    hide Step, Ask, Told, Shows;
    var a, t, l' := op.a, Step(db, s, op), Perform(l, db.hashOf, op);
    forall k
      ensures Turns(db, s, op, a, k, Told(l'.value.now, a, k))
    {
      AccountTurns(db, s, l, op, k);
    }
    assert Turns(db, s, op, a, 0, Told(l'.value.now, a, 0));
    ShowsAfter(db, s, t.value, l.now, l'.value.now, a);
  }

  lemma SameShows(db: Db, s: State, t: State, w: World)
    requires Shows(db, s, w) && SameAnswers(db, s, t) && t.refund == s.refund && t.preimages == s.preimages
    ensures Shows(db, t, w)
  {
    hide Ask, Told;
  }

  /** Any call but snapshot and revert. */
  lemma CallShows(db: Db, s: State, l: Ledger, op: Op)
    requires WellFormed(db, s) && Shows(db, s, l.now) && !op.OpSnapshot? && !op.OpRevert?
    ensures var t, l' := Step(db, s, op), Perform(l, db.hashOf, op);
            && t.Some? && l'.Some? && Shows(db, t.value, l'.value.now)
            && l'.value.copies == l.copies && l'.value.nextId == l.nextId
  {
    hide Step, Ask;
    match op
    case OpAddRefund(gas) => RefundLaw(db, s, gas);
    case OpAddPreimage(h, b) => PreimageLaw(db, s, h, b);
    case OpRead(_) => ReadLaw(db, s, op); SameShows(db, s, Step(db, s, op).value, l.now);
    case OpReadState(_, _) => ReadLaw(db, s, op); SameShows(db, s, Step(db, s, op).value, l.now);
    case OpReadCode(_) => ReadLaw(db, s, op); SameShows(db, s, Step(db, s, op).value, l.now);
    case _ => AccountShows(db, s, l, op);
  }

  // ----- Runs

  /** The copies are what the snapshots on the stack looked like. */
  ghost predicate Mirrors(db: Db, s: State, l: Ledger, views: map<nat, State>)
  {
    && Shows(db, s, l.now) && l.nextId == s.nextRevisionId && |l.copies| == |s.revisions|
    && forall i :: 0 <= i < |l.copies| ==> CopyOf(db, s.revisions[i].id, l.copies[i], views)
  }

  ghost predicate CopyOf(db: Db, id: nat, copy: (nat, World), views: map<nat, State>)
  {
    copy.0 == id && id in views && Shows(db, views[id], copy.1)
  }

  lemma RevertMirrors(db: Db, s: State, l: Ledger, id: nat, hist: seq<State>, views: map<nat, State>, touches: nat)
    requires Inv(db, s, hist, views, touches) && Mirrors(db, s, l, views)
    ensures var t, l' := RevertToSnapshot(db, s, id), Perform(l, db.hashOf, OpRevert(id));
            (t.Some? <==> l'.Some?) && (t.Some? ==> Mirrors(db, t.value, l'.value, views))
  {
    hide WellFormed, Shows, History, Counted, SameView, RevertTo, Viewed;
    var t, i, j := RevertToSnapshot(db, s, id), Search(s.revisions, id), Copied(l.copies, id);
    var h := RevertKeepsInv(db, s, id, hist, views, touches);
    assert forall n :: 0 <= n < |l.copies| ==> CopyOf(db, s.revisions[n].id, l.copies[n], views);
    if t.Some? {
      RevertToRevisions(db, s, s.revisions[i].journalIndex);
      assert l.copies[i].0 == id && i == j;
      SameViewAnswers(db, views[id], t.value) by { ViewSym(db, t.value, views[id]); }
      SameShows(db, views[id], t.value, l.copies[i].1);
    }
  }

  lemma StepMirrors(db: Db, s: State, l: Ledger, op: Op, hist: seq<State>, views: map<nat, State>, touches: nat)
    returns (hist': seq<State>, views': map<nat, State>, touches': nat)
    requires Inv(db, s, hist, views, touches) && Mirrors(db, s, l, views)
    ensures var t, l' := Step(db, s, op), Perform(l, db.hashOf, op);
            && (t.Some? <==> l'.Some?)
            && (t.Some? ==> Inv(db, t.value, hist', views', touches') && Mirrors(db, t.value, l'.value, views'))
  {
    hide Inv, Shows, WellFormed;
    hist', views', touches' := hist, views, touches;
    var t, l' := Step(db, s, op), Perform(l, db.hashOf, op);
    if op.OpRevert? {
      RevertMirrors(db, s, l, op.id, hist, views, touches);
    } else {
      InvFormed(db, s, hist, views, touches);
      if !op.OpSnapshot? {
        CallShows(db, s, l, op);
        StepRevisions(db, s, op);
      }
    }
    if t.Some? {
      hist', views', touches' := StepKeepsInv(db, s, op, hist, views, touches);
      if op.OpSnapshot? {
        ReadLaw(db, s, op);
        SameShows(db, s, t.value, l.now);
      }
      hide Step, Perform, RevertToSnapshot;
      forall i | 0 <= i < |l'.value.copies|
        ensures CopyOf(db, t.value.revisions[i].id, l'.value.copies[i], views')
      {
      }
    }
  }

  lemma InvFormed(db: Db, s: State, hist: seq<State>, views: map<nat, State>, touches: nat)
    requires Inv(db, s, hist, views, touches)
    ensures WellFormed(db, s)
  {
  }

  lemma {:induction false} PlayMirrors(db: Db, s: State, l: Ledger, ops: seq<Op>, hist: seq<State>, views: map<nat, State>,
                                       touches: nat)
    requires Inv(db, s, hist, views, touches) && Mirrors(db, s, l, views)
    ensures var t, l' := Run(db, s, ops), Play(l, db.hashOf, ops);
            (t.Some? <==> l'.Some?)
            && (t.Some? ==> Shows(db, t.value, l'.value.now) && t.value.nextRevisionId == l'.value.nextId)
    decreases |ops|
  {
    hide Inv, Step, Perform, Shows;
    if ops != [] {
      var h, v, n := StepMirrors(db, s, l, ops[0], hist, views, touches);
      if Step(db, s, ops[0]).Some? {
        PlayMirrors(db, Step(db, s, ops[0]).value, Perform(l, db.hashOf, ops[0]).value, ops[1..], h, v, n);
      }
    }
  }

  lemma GenesisShown(db: Db)
    ensures Mirrors(db, NewState(), Genesis(db), map[])
  {
  }

  /** Over every sequence of calls on a new state: a call panics exactly if it does on the
      plain world, and all getters, the refund counter, the preimages and the next
      snapshot id are those of the plain world. */
  lemma RunIsLedger(db: Db, ops: seq<Op>)
    ensures var s, l := Run(db, NewState(), ops), Play(Genesis(db), db.hashOf, ops);
            && (s.Some? <==> l.Some?)
            && (s.Some? ==> Shows(db, s.value, l.value.now) && s.value.nextRevisionId == l.value.nextId)
  {
    hide Inv, Mirrors;
    NewStateInv(db);
    GenesisShown(db);
    PlayMirrors(db, NewState(), Genesis(db), ops, [NewState()], map[], 0);
  }
}
