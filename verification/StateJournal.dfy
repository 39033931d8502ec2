/** Reverting to a snapshot restores everything a caller can observe, over every run. */
module StateJournal {
  import opened Wrappers
  import opened StateSpec

  // ----- What callers can observe

  /** No getter tells the two objects apart. */
  ghost predicate SameObject(db: Db, o: Object, p: Object)
  {
    && o.nonce == p.nonce && o.balance == p.balance && o.codeHash == p.codeHash && o.suicided == p.suicided
    && ReadCode(db, o) == ReadCode(db, p)
    && (forall k :: ReadWord(o, k) == ReadWord(p, k))
    && (forall k :: ReadPdx(o, k) == ReadPdx(p, k))
  }

  ghost predicate SameLive(db: Db, x: Option<Object>, y: Option<Object>)
  {
    if x.Some? && y.Some? then SameObject(db, x.value, y.value) else x.None? && y.None?
  }

  ghost predicate SameView(db: Db, s: State, t: State)
  {
    && (forall a :: SameLive(db, Live(db, s, a), Live(db, t, a)))
    && s.refund == t.refund && s.preimages == t.preimages
  }

  /** Objects are stored under their address; deleted ones are gone from the trie. */
  ghost predicate WellFormed(db: Db, s: State)
  {
    && (forall a :: a in s.objects ==> s.objects[a].address == a)
    && (forall a :: a in s.objects && s.objects[a].deleted ==> a !in db.accounts)
    && (forall e :: e in s.entries && e.ResetObject? ==> !e.prevObject.deleted)
  }

  /** The getters of StateDB. */
  function GetBalance(db: Db, s: State, a: Address): (v: int)
  {
    var o := Live(db, s, a);
    if o.Some? then o.value.balance else 0
  }

  function GetNonce(db: Db, s: State, a: Address): (n: nat)
  {
    var o := Live(db, s, a);
    if o.Some? then o.value.nonce else 0
  }

  function GetCode(db: Db, s: State, a: Address): (c: Option<Bytes>)
  {
    var o := Live(db, s, a);
    if o.Some? then ReadCode(db, o.value) else None
  }

  function GetCodeHash(db: Db, s: State, a: Address): (h: Hash)
  {
    var o := Live(db, s, a);
    if o.Some? then o.value.codeHash else 0
  }

  /** Always looked up by hash, so code that was only set and never stored counts as empty. */
  function GetCodeSize(db: Db, s: State, a: Address): (n: nat)
  {
    var h := GetCodeHash(db, s, a);
    if h in db.codes then |db.codes[h]| else 0
  }

  function GetState(db: Db, s: State, a: Address, k: Hash): (w: StorageWord)
  {
    var o := Live(db, s, a);
    if o.Some? then ReadWord(o.value, k) else 0
  }

  function GetPDXState(db: Db, s: State, a: Address, k: Hash): (b: Bytes)
  {
    var o := Live(db, s, a);
    if o.Some? then ReadPdx(o.value, k) else []
  }

  predicate Exist(db: Db, s: State, a: Address) { Live(db, s, a).Some? }

  predicate Empty(db: Db, s: State, a: Address)
  {
    var o := Live(db, s, a);
    o.None? || IsEmpty(o.value)
  }

  predicate HasSuicided(db: Db, s: State, a: Address)
  {
    var o := Live(db, s, a);
    o.Some? && o.value.suicided
  }

  /** The same view answers every getter alike. */
  lemma ViewDecidesGetters(db: Db, s: State, t: State, a: Address, k: Hash)
    requires SameView(db, s, t)
    ensures Exist(db, s, a) == Exist(db, t, a) && Empty(db, s, a) == Empty(db, t, a)
    ensures GetBalance(db, s, a) == GetBalance(db, t, a) && GetNonce(db, s, a) == GetNonce(db, t, a)
    ensures GetCode(db, s, a) == GetCode(db, t, a) && GetCodeHash(db, s, a) == GetCodeHash(db, t, a)
    ensures GetState(db, s, a, k) == GetState(db, t, a, k) && GetPDXState(db, s, a, k) == GetPDXState(db, t, a, k)
    ensures HasSuicided(db, s, a) == HasSuicided(db, t, a) && GetCodeSize(db, s, a) == GetCodeSize(db, t, a)
    ensures s.refund == t.refund && s.preimages == t.preimages
  {
    assert SameLive(db, Live(db, s, a), Live(db, t, a));
  }

  lemma ViewRefl(db: Db, s: State, t: State)
    requires s.objects == t.objects && s.refund == t.refund && s.preimages == t.preimages
    ensures SameView(db, s, t)
  {
  }

  lemma ViewSym(db: Db, s: State, t: State)
    requires SameView(db, s, t)
    ensures SameView(db, t, s)
  {
    hide Live, ReadCode, ReadWord, ReadPdx;
    forall a
      ensures SameLive(db, Live(db, t, a), Live(db, s, a))
    {
      assert SameLive(db, Live(db, s, a), Live(db, t, a));
    }
  }

  lemma ViewTrans(db: Db, s: State, t: State, u: State)
    requires SameView(db, s, t) && SameView(db, t, u)
    ensures SameView(db, s, u)
  {
    hide Live, ReadCode, ReadWord, ReadPdx;
    forall a
      ensures SameLive(db, Live(db, s, a), Live(db, u, a))
    {
      assert SameLive(db, Live(db, s, a), Live(db, t, a)) && SameLive(db, Live(db, t, a), Live(db, u, a));
    }
  }

  /** Changing one object changes the view of its account only. */
  lemma LiveWith(db: Db, s: State, o: Object, b: Address)
    ensures Live(db, WithObject(s, o), b) ==
            if b == o.address then (if o.deleted then None else Some(o)) else Live(db, s, b)
  {
  }

  lemma LoadKeepsView(db: Db, s: State, a: Address)
    ensures SameView(db, s, Load(db, s, a))
    ensures forall b :: Live(db, Load(db, s, a), b) == Live(db, s, b)
    ensures WellFormed(db, s) ==> WellFormed(db, Load(db, s, a))
  {
  }

  // ----- Undoing a change from equal views gives equal views

  lemma UndoObjectSame(db: Db, o: Object, p: Object, e: Entry)
    requires SameObject(db, o, p)
    ensures SameObject(db, UndoObject(o, e), UndoObject(p, e))
  {
    hide TrieWord, TrieBytes;
    var o', p' := UndoObject(o, e), UndoObject(p, e);
    forall k
      ensures ReadWord(o', k) == ReadWord(p', k) && ReadPdx(o', k) == ReadPdx(p', k)
    {
      assert ReadWord(o, k) == ReadWord(p, k) && ReadPdx(o, k) == ReadPdx(p, k);
    }
  }

  lemma UndoSame(db: Db, s: State, t: State, e: Entry)
    requires WellFormed(db, s) && WellFormed(db, t) && SameView(db, s, t) && Undoable(db, s, e)
    ensures Undoable(db, t, e) && SameView(db, Undo(db, s, e), Undo(db, t, e))
  {
    hide Live, Undo, WellFormed, SameObject, UndoObject;
    if NeedsObject(e) {
      assert SameLive(db, Live(db, s, e.account), Live(db, t, e.account));
    }
    UndoRest(db, s, e);
    UndoRest(db, t, e);
    forall b
      ensures SameLive(db, Live(db, Undo(db, s, e), b), Live(db, Undo(db, t, e), b))
    {
      UndoSameAt(db, s, t, e, b);
    }
  }

  lemma UndoSameAt(db: Db, s: State, t: State, e: Entry, b: Address)
    requires WellFormed(db, s) && WellFormed(db, t) && SameView(db, s, t) && Undoable(db, s, e) && Undoable(db, t, e)
    ensures SameLive(db, Live(db, Undo(db, s, e), b), Live(db, Undo(db, t, e), b))
  {
    hide Live, Undo, WellFormed, UndoObject, ReadCode, ReadWord, ReadPdx;
    assert SameLive(db, Live(db, s, b), Live(db, t, b));
    UndoLive(db, s, e, b);
    UndoLive(db, t, e, b);
    if Touches(e, b) && Live(db, s, b).Some? && !e.CreateObject? && !e.ResetObject? {
      UndoObjectSame(db, Live(db, s, b).value, Live(db, t, b).value, e);
    }
  }

  predicate Touches(e: Entry, b: Address)
  {
    match e
    case ResetObject(o) => b == o.address
    case RefundChange(_) => false
    case AddPreimageChange(_) => false
    case _ => b == e.account
  }

  /** The live object after an undo, from the one before. */
  lemma UndoLive(db: Db, s: State, e: Entry, b: Address)
    requires WellFormed(db, s) && Undoable(db, s, e)
    ensures Live(db, Undo(db, s, e), b) ==
            if !Touches(e, b) then Live(db, s, b)
            else match e
                 case ResetObject(o) => (if o.deleted then None else Some(o))
                 case CreateObject(_) => (if b in db.accounts then Some(NewObject(db, b, db.accounts[b])) else None)
                 case _ => (if Live(db, s, b).None? then None else Some(UndoObject(Live(db, s, b).value, e)))
  {
    match e
    case CreateObject(_) =>
    case ResetObject(o) => LiveWith(db, s, o, b);
    case RefundChange(_) =>
    case AddPreimageChange(_) =>
    case TouchChange(_) =>
    case _ => UndoObjectLive(db, s, e, b);
  }

  lemma UndoObjectLive(db: Db, s: State, e: Entry, b: Address)
    requires WellFormed(db, s) && Undoable(db, s, e) && (NeedsObject(e) || e.SuicideChange?)
    ensures Live(db, Undo(db, s, e), b) ==
            if b == e.account && Live(db, s, b).Some? then Some(UndoObject(Live(db, s, b).value, e)) else Live(db, s, b)
  {
    var a := e.account;
    LoadKeepsView(db, s, a);
    if Live(db, s, a).Some? {
      var o := UndoObject(Live(db, s, a).value, e);
      assert o.address == a && !o.deleted;
      assert Undo(db, s, e) == WithObject(Load(db, s, a), o);
      hide Undo, UndoObject, Load, Live;
      LiveWith(db, Load(db, s, a), o, b);
    }
  }

  lemma UndoRest(db: Db, s: State, e: Entry)
    requires Undoable(db, s, e)
    ensures var s' := Undo(db, s, e);
            && s'.refund == (if e.RefundChange? then e.prevRefund else s.refund)
            && s'.preimages == (if e.AddPreimageChange? then s.preimages - {e.hash} else s.preimages)
            && s'.entries == s.entries && s'.dirties == s.dirties
            && s'.revisions == s.revisions && s'.nextRevisionId == s.nextRevisionId
  {
  }

  // ----- The history behind the journal

  /** hist[i] has the view of the state when the journal had i entries: each entry
      leads from one back to the one before, and the last one is the present. */
  ghost predicate History(db: Db, s: State, hist: seq<State>)
  {
    && |hist| == |s.entries| + 1
    && (forall i :: 0 <= i < |hist| ==> WellFormed(db, hist[i]))
    && SameView(db, s, hist[|s.entries|])
    && (forall i :: 0 <= i < |s.entries| ==> LeadsBack(db, hist[i + 1], s.entries[i], hist[i]))
  }

  ghost predicate LeadsBack(db: Db, s': State, e: Entry, s: State)
  {
    Undoable(db, s', e) && SameView(db, Undo(db, s', e), s)
  }

  /** How many entries dirty an account. */
  function Count(entries: seq<Entry>, a: Address): (n: nat)
  {
    if entries == [] then 0
    else Count(entries[..|entries| - 1], a) + if Dirtied(entries[|entries| - 1]) == Some(a) then 1 else 0
  }

  function DirtyCount(d: map<Address, int>, a: Address): (n: int)
  {
    if a in d then d[a] else 0
  }

  /** dirties counts the entries of each account, plus the marks of RIPEMD touches. */
  ghost predicate Counted(d: map<Address, int>, entries: seq<Entry>, touches: nat)
  {
    && (forall a :: DirtyCount(d, a) == Count(entries, a) + if a == RIPEMD then touches else 0)
    && (forall a :: a in d ==> d[a] > 0)
  }

  /** Snapshots are ordered by id and by journal position, and views[id] looks like
      the state at the position of snapshot id. */
  ghost predicate Revised(db: Db, s: State, hist: seq<State>, views: map<nat, State>)
    requires |hist| == |s.entries| + 1
  {
    && (forall i :: 0 <= i < |s.revisions| ==> Viewed(db, s.revisions[i], s, hist, views))
    && (forall i, j :: 0 <= i < j < |s.revisions| ==>
          s.revisions[i].id < s.revisions[j].id && s.revisions[i].journalIndex <= s.revisions[j].journalIndex)
  }

  ghost predicate Viewed(db: Db, r: Revision, s: State, hist: seq<State>, views: map<nat, State>)
    requires |hist| == |s.entries| + 1
  {
    && r.id < s.nextRevisionId && r.journalIndex <= |s.entries|
    && r.id in views && SameView(db, hist[r.journalIndex], views[r.id])
  }

  ghost predicate Inv(db: Db, s: State, hist: seq<State>, views: map<nat, State>, touches: nat)
  {
    && WellFormed(db, s) && History(db, s, hist) && Counted(s.dirties, s.entries, touches)
    && Revised(db, s, hist, views) && (forall id :: id in views ==> id < s.nextRevisionId)
  }

  /** The journal undoes its last entry against a live object and arrives at the
      state of one entry ago. */
  lemma RevertLastKeepsHistory(db: Db, s: State, hist: seq<State>)
    requires WellFormed(db, s) && History(db, s, hist) && s.entries != []
    ensures Undoable(db, s, s.entries[|s.entries| - 1])
    ensures WellFormed(db, RevertLast(db, s)) && History(db, RevertLast(db, s), hist[..|s.entries|])
  {
    var n := |s.entries|;
    var e := s.entries[n - 1];
    assert LeadsBack(db, hist[n], e, hist[n - 1]);
    ViewSym(db, s, hist[n]);
    UndoSame(db, hist[n], s, e);
    UndoWellFormed(db, s, e);
    hide Undo, UndoObject, WellFormed, SameView, Live, Undoable;
    var s' := RevertLast(db, s);
    ViewSym(db, Undo(db, hist[n], e), Undo(db, s, e));
    ViewTrans(db, Undo(db, s, e), Undo(db, hist[n], e), hist[n - 1]);
    ViewFields(db, Undo(db, s, e), s', hist[n - 1]);
    WellFormedFields(db, Undo(db, s, e), s');
    forall i | 0 <= i < n - 1
      ensures LeadsBack(db, hist[..n][i + 1], s'.entries[i], hist[..n][i])
    {
      assert LeadsBack(db, hist[i + 1], s.entries[i], hist[i]);
    }
  }

  lemma ViewFields(db: Db, s: State, s': State, t: State)
    requires SameView(db, s, t) && s'.objects == s.objects && s'.refund == s.refund && s'.preimages == s.preimages
    ensures SameView(db, s', t)
  {
    forall a
      ensures SameLive(db, Live(db, s', a), Live(db, t, a))
    {
      assert SameLive(db, Live(db, s, a), Live(db, t, a));
    }
  }

  lemma WellFormedFields(db: Db, s: State, s': State)
    requires WellFormed(db, s) && s'.objects == s.objects
    requires forall e :: e in s'.entries ==> e in s.entries
    ensures WellFormed(db, s')
  {
  }

  lemma WithKeepsForm(db: Db, s: State, o: Object)
    requires WellFormed(db, s) && !o.deleted
    ensures WellFormed(db, WithObject(s, o))
  {
  }

  lemma AppendKeepsForm(db: Db, s: State, e: Entry)
    requires WellFormed(db, s) && (e.ResetObject? ==> !e.prevObject.deleted)
    ensures WellFormed(db, Append(s, e))
  {
  }

  lemma UndoWellFormed(db: Db, s: State, e: Entry)
    requires WellFormed(db, s) && Undoable(db, s, e) && e in s.entries
    ensures WellFormed(db, Undo(db, s, e))
  {
    if NeedsObject(e) || e.SuicideChange? {
      LoadKeepsView(db, s, e.account);
      var l := Load(db, s, e.account);
      if Live(db, s, e.account).Some? {
        var o := UndoObject(Live(db, s, e.account).value, e);
        assert Undo(db, s, e) == WithObject(l, o) && !o.deleted;
        hide *;
        WithKeepsForm(db, l, o);
      }
    }
  }

  lemma {:induction false} RevertToKeepsHistory(db: Db, s: State, hist: seq<State>, n: nat)
    requires WellFormed(db, s) && History(db, s, hist) && n <= |s.entries|
    ensures var r := RevertTo(db, s, n);
            && r.Some? && WellFormed(db, r.value) && History(db, r.value, hist[..n + 1])
            && r.value.entries == s.entries[..n] && r.value.revisions == s.revisions
            && r.value.nextRevisionId == s.nextRevisionId
    decreases |s.entries|
  {
    hide WellFormed, History, Undoable, Undo;
    if |s.entries| > n {
      var m := |s.entries|;
      RevertLastKeepsHistory(db, s, hist);
      UndoRest(db, s, s.entries[m - 1]);
      HistoryLength(db, s, hist);
      RevertToKeepsHistory(db, RevertLast(db, s), hist[..m], n);
      assert hist[..m][..n + 1] == hist[..n + 1];
      assert s.entries[..m - 1][..n] == s.entries[..n];
    } else {
      HistoryLength(db, s, hist);
      assert hist[..n + 1] == hist && s.entries[..n] == s.entries;
    }
  }

  lemma HistoryLength(db: Db, s: State, hist: seq<State>)
    requires History(db, s, hist)
    ensures |hist| == |s.entries| + 1
  {
  }

  // ----- Dirty counters

  lemma CountSnoc(entries: seq<Entry>, e: Entry, a: Address)
    ensures Count(entries + [e], a) == Count(entries, a) + if Dirtied(e) == Some(a) then 1 else 0
  {
    assert (entries + [e])[..|entries|] == entries;
  }

  lemma AppendCounted(s: State, e: Entry, touches: nat)
    requires Counted(s.dirties, s.entries, touches)
    ensures Counted(Append(s, e).dirties, Append(s, e).entries, touches)
  {
    hide Dirtied, Append, Count, DirtyCount;
    forall a
      ensures DirtyCount(Append(s, e).dirties, a)
           == Count(Append(s, e).entries, a) + if a == RIPEMD then touches else 0
    {
      AppendDirties(s, e, a);
      CountSnoc(s.entries, e, a);
    }
    forall a | a in Append(s, e).dirties
      ensures Append(s, e).dirties[a] > 0
    {
      AppendDirties(s, e, a);
    }
  }

  lemma AppendDirties(s: State, e: Entry, a: Address)
    requires forall b :: b in s.dirties ==> s.dirties[b] > 0
    ensures Append(s, e).entries == s.entries + [e]
    ensures DirtyCount(Append(s, e).dirties, a) == DirtyCount(s.dirties, a) + if Dirtied(e) == Some(a) then 1 else 0
    ensures a in Append(s, e).dirties ==> Append(s, e).dirties[a] > 0
  {
    hide Dirtied;
  }

  lemma UndirtyCounted(d: map<Address, int>, entries: seq<Entry>, touches: nat)
    requires Counted(d, entries, touches) && entries != []
    ensures Counted(Undirty(d, entries[|entries| - 1]), entries[..|entries| - 1], touches)
  {
    hide Dirtied;
    var e, rest := entries[|entries| - 1], entries[..|entries| - 1];
    assert entries == rest + [e];
    forall a
      ensures DirtyCount(Undirty(d, e), a) == Count(rest, a) + if a == RIPEMD then touches else 0
    {
      CountSnoc(rest, e, a);
      assert DirtyCount(d, a) == Count(entries, a) + if a == RIPEMD then touches else 0;
    }
    forall a | a in Undirty(d, e)
      ensures Undirty(d, e)[a] > 0
    {
      assert DirtyCount(Undirty(d, e), a) >= 0;
    }
  }

  lemma {:induction false} RevertToCounted(db: Db, s: State, n: nat, touches: nat)
    requires Counted(s.dirties, s.entries, touches) && RevertTo(db, s, n).Some?
    ensures Counted(RevertTo(db, s, n).value.dirties, RevertTo(db, s, n).value.entries, touches)
    decreases |s.entries|
  {
    hide Counted, Undo, Undirty, Undoable;
    if |s.entries| > n {
      UndirtyCounted(s.dirties, s.entries, touches);
      UndoRest(db, s, s.entries[|s.entries| - 1]);
      RevertToCounted(db, RevertLast(db, s), n, touches);
    }
  }

  // ----- Operations extend the history

  /** Nothing observable happens and nothing is journaled. */
  ghost predicate Quiet(db: Db, s: State, s': State)
  {
    && WellFormed(db, s') && SameView(db, s, s')
    && s'.entries == s.entries && s'.dirties == s.dirties
    && s'.revisions == s.revisions && s'.nextRevisionId == s.nextRevisionId
  }

  /** One entry is journaled, and it leads back. */
  ghost predicate Journaled(db: Db, s: State, s': State, e: Entry)
  {
    && WellFormed(db, s') && LeadsBack(db, s', e, s)
    && s'.entries == s.entries + [e]
    && s'.revisions == s.revisions && s'.nextRevisionId == s.nextRevisionId
  }

  lemma QuietKeepsInv(db: Db, s: State, s': State, hist: seq<State>, views: map<nat, State>, touches: nat)
    requires Inv(db, s, hist, views, touches) && Quiet(db, s, s')
    ensures Inv(db, s', hist, views, touches)
  {
    hide SameView, WellFormed, LeadsBack, Counted;
    ViewSym(db, s, s');
    ViewTrans(db, s', s, hist[|s.entries|]);
    assert forall i :: 0 <= i < |s.revisions| ==> Viewed(db, s.revisions[i], s, hist, views);
  }

  lemma JournaledKeepsInv(db: Db, s: State, s': State, e: Entry, hist: seq<State>, views: map<nat, State>,
                          touches: nat, touches': nat)
    requires Inv(db, s, hist, views, touches) && Journaled(db, s, s', e)
    requires Counted(s'.dirties, s'.entries, touches')
    ensures Inv(db, s', hist + [s'], views, touches')
  {
    hide Live, Undo, WellFormed, Counted, UndoObject;
    var n, h := |s.entries|, hist + [s'];
    ViewRefl(db, s', s');
    ViewTrans(db, Undo(db, s', e), s, hist[n]);
    hide SameView;
    forall i | 0 <= i < n + 1
      ensures LeadsBack(db, h[i + 1], s'.entries[i], h[i])
    {
      assert i < n ==> LeadsBack(db, hist[i + 1], s.entries[i], hist[i]);
    }
    forall i | 0 <= i < |s'.revisions|
      ensures Viewed(db, s'.revisions[i], s', h, views)
    {
      assert Viewed(db, s.revisions[i], s, hist, views);
    }
  }

  /** A journaled change to a live object whose revert gives the object back. */
  lemma ObjectChange(db: Db, s: State, e: Entry, o: Object, o': Object)
    requires WellFormed(db, s) && Live(db, s, o.address) == Some(o) && o.address in s.objects
    requires (NeedsObject(e) || e.SuicideChange?) && e.account == o.address
    requires o'.address == o.address && !o'.deleted && SameObject(db, UndoObject(o', e), o)
    ensures Journaled(db, s, JournalObject(s, e, o'), e)
  {
    var s' := JournalObject(s, e, o');
    assert WellFormed(db, s') by { hide Live, UndoObject, SameObject; }
    LiveWith(db, Append(s, e), o', o.address);
    hide ReadCode, ReadWord, ReadPdx, Undo, WellFormed, UndoObject;
    forall b
      ensures SameLive(db, Live(db, Undo(db, s', e), b), Live(db, s, b))
    {
      UndoObjectLive(db, s', e, b);
      LiveWith(db, Append(s, e), o', b);
      SameSelf(db, s, b);
    }
    UndoRest(db, s', e);
  }

  lemma SameSelf(db: Db, s: State, b: Address)
    ensures SameLive(db, Live(db, s, b), Live(db, s, b))
  {
  }

  lemma CreateJournaled(db: Db, s: State, a: Address)
    requires WellFormed(db, s)
    ensures var e := if Live(db, s, a).None? then CreateObject(a) else ResetObject(Live(db, s, a).value);
            Journaled(db, s, Create(db, s, a), e) && Journaled(db, s, CreateAccount(db, s, a), e)
  {
    var prev := Live(db, s, a);
    var e := if prev.None? then CreateObject(a) else ResetObject(prev.value);
    var o := NewObject(db, a, EmptyAccount());
    hide Journaled, Live, Load, Append;
    FreshObject(db, s, a, e, o);
    if prev.Some? {
      var p := o.(balance := prev.value.balance);
      FreshObject(db, s, a, e, p);
      Overwritten(Append(Load(db, s, a), e), o, p);
    }
  }

  lemma Overwritten(s: State, o: Object, p: Object)
    requires o.address == p.address
    ensures WithObject(WithObject(s, o), p) == WithObject(s, p)
  {
    assert s.objects[o.address := o][o.address := p] == s.objects[o.address := p];
  }

  /** Whatever object takes the place of the old one, the entry brings that back. */
  lemma FreshObject(db: Db, s: State, a: Address, e: Entry, o: Object)
    requires WellFormed(db, s) && o.address == a && !o.deleted
    requires e == if Live(db, s, a).None? then CreateObject(a) else ResetObject(Live(db, s, a).value)
    ensures Journaled(db, s, WithObject(Append(Load(db, s, a), e), o), e)
  {
    LoadKeepsView(db, s, a);
    var l := Load(db, s, a);
    var s' := WithObject(Append(l, e), o);
    assert l == s.(objects := l.objects);
    AppendKeepsForm(db, l, e);
    WithKeepsForm(db, Append(l, e), o);
    hide ReadCode, ReadWord, ReadPdx, Undo, WellFormed, UndoObject, Load, Live;
    forall b
      ensures SameLive(db, Live(db, Undo(db, s', e), b), Live(db, s, b))
    {
      FreshUndone(db, s, l, a, e, o, b);
      SameSelf(db, s, b);
    }
    UndoRest(db, s', e);
  }

  lemma FreshUndone(db: Db, s: State, l: State, a: Address, e: Entry, o: Object, b: Address)
    requires WellFormed(db, WithObject(Append(l, e), o)) && o.address == a && Live(db, l, b) == Live(db, s, b)
    requires e == if Live(db, s, a).None? then CreateObject(a) else ResetObject(Live(db, s, a).value)
    requires WellFormed(db, s)
    ensures Live(db, Undo(db, WithObject(Append(l, e), o), e), b) == Live(db, s, b)
  {
    hide Undo, UndoObject;
    UndoLive(db, WithObject(Append(l, e), o), e, b);
    LiveWith(db, Append(l, e), o, b);
  }

  lemma TouchJournaled(db: Db, s: State, a: Address)
    requires WellFormed(db, s)
    ensures Journaled(db, s, Touch(s, a), TouchChange(a))
  {
    ViewRefl(db, Touch(s, a), s);
  }

  lemma RefundJournaled(db: Db, s: State, gas: nat)
    requires WellFormed(db, s)
    ensures Journaled(db, s, AddRefund(s, gas), RefundChange(s.refund))
  {
    ViewRefl(db, Undo(db, AddRefund(s, gas), RefundChange(s.refund)), s);
  }

  lemma PreimageJournaled(db: Db, s: State, h: Hash, b: Bytes)
    requires WellFormed(db, s) && h !in s.preimages
    ensures Journaled(db, s, AddPreimage(s, h, b), AddPreimageChange(h))
  {
    var s' := Undo(db, AddPreimage(s, h, b), AddPreimageChange(h));
    assert s'.preimages == s.preimages;
    ViewRefl(db, s', s);
  }

  /** Caching what a getter read does not change what it reads. */
  lemma CacheQuiet(db: Db, s: State, a: Address, o: Object, o': Object)
    requires WellFormed(db, s) && Live(db, s, a) == Some(o) && o'.address == a && !o'.deleted && SameObject(db, o, o')
    ensures Quiet(db, s, WithObject(Load(db, s, a), o'))
  {
    LoadKeepsView(db, s, a);
    var l := Load(db, s, a);
    hide ReadCode, ReadWord, ReadPdx;
    forall b
      ensures SameLive(db, Live(db, s, b), Live(db, WithObject(l, o'), b))
    {
      LiveWith(db, l, o', b);
      assert Live(db, l, b) == Live(db, s, b);
    }
  }

  // ----- Every call keeps the invariant

  lemma GetOrNewKeepsInv(db: Db, s: State, a: Address, hist: seq<State>, views: map<nat, State>, touches: nat)
    returns (hist': seq<State>)
    requires Inv(db, s, hist, views, touches)
    ensures var s1 := GetOrNew(db, s, a);
            Inv(db, s1, hist', views, touches) && s1.objects[a].address == a && Live(db, s1, a) == Some(s1.objects[a])
  {
    hide Revised, History, LeadsBack, SameView;
    if Live(db, s, a).None? {
      CreateJournaled(db, s, a);
      AppendCounted(Load(db, s, a), CreateObject(a), touches);
      JournaledKeepsInv(db, s, Create(db, s, a), CreateObject(a), hist, views, touches, touches);
      hist' := hist + [Create(db, s, a)];
    } else {
      LoadKeepsView(db, s, a);
      QuietKeepsInv(db, s, Load(db, s, a), hist, views, touches);
      hist' := hist;
    }
  }

  lemma ObjectChangeKeepsInv(db: Db, s: State, e: Entry, o: Object, o': Object, hist: seq<State>,
                             views: map<nat, State>, touches: nat)
    requires Inv(db, s, hist, views, touches)
    requires Live(db, s, o.address) == Some(o) && o.address in s.objects
    requires (NeedsObject(e) || e.SuicideChange?) && e.account == o.address
    requires o'.address == o.address && !o'.deleted && SameObject(db, UndoObject(o', e), o)
    ensures Inv(db, JournalObject(s, e, o'), hist + [JournalObject(s, e, o')], views, touches)
  {
    hide Revised, History, LeadsBack, Counted, SameObject, WellFormed, UndoObject, Live;
    var s' := JournalObject(s, e, o');
    ObjectChange(db, s, e, o, o');
    AppendCounted(s, e, touches);
    JournaledKeepsInv(db, s, s', e, hist, views, touches, touches);
  }

  lemma BalanceUndone(db: Db, o: Object, v: int)
    ensures SameObject(db, UndoObject(o.(balance := v), BalanceChange(o.address, o.balance)), o)
    ensures SameObject(db, UndoObject(o.(suicided := true, balance := 0),
                                      SuicideChange(o.address, o.suicided, o.balance)), o)
  {
  }

  lemma NonceUndone(db: Db, o: Object, n: nat)
    ensures SameObject(db, UndoObject(o.(nonce := n), NonceChange(o.address, o.nonce)), o)
  {
  }

  lemma CodeUndone(db: Db, o: Object, h: Hash, c: Bytes)
    ensures SameObject(db, UndoObject(o.(code := Some(c), codeHash := h, dirtyCode := true),
                                      CodeChange(o.address, ReadCode(db, o), o.codeHash)), o)
  {
  }

  lemma StorageUndone(db: Db, o: Object, k: Hash, w: StorageWord)
    ensures SameObject(db, UndoObject(o.(cached := o.cached[k := w], dirty := o.dirty[k := w]),
                                      StorageChange(o.address, k, ReadWord(o, k))), o)
    ensures SameObject(db, o, o.(cached := o.cached[k := ReadWord(o, k)]))
  {
    hide TrieWord, TrieBytes;
  }

  lemma PdxUndone(db: Db, o: Object, k: Hash, b: Bytes)
    ensures SameObject(db, UndoObject(o.(pdxCached := o.pdxCached[k := b], pdxDirty := o.pdxDirty[k := b]),
                                      PdxStorageChange(o.address, k, ReadPdx(o, k))), o)
  {
    hide TrieWord, TrieBytes;
  }

  lemma CodeCached(db: Db, o: Object)
    ensures SameObject(db, o, o.(code := ReadCode(db, o)))
  {
  }

  /** The entry a setter journals and the object it leaves, when it journals one. */
  function SetterChange(db: Db, o: Object, op: Op): (c: Option<(Entry, Object)>)
    requires IsSetter(op)
  {
    match op
    case OpAddBalance(_, v) =>
      if v == 0 then None else Some((BalanceChange(o.address, o.balance), o.(balance := o.balance + v)))
    case OpSubBalance(_, v) =>
      if v == 0 then None else Some((BalanceChange(o.address, o.balance), o.(balance := o.balance - v)))
    case OpSetBalance(_, v) => Some((BalanceChange(o.address, o.balance), o.(balance := v)))
    case OpSetNonce(_, n) => Some((NonceChange(o.address, o.nonce), o.(nonce := n)))
    case OpSetCode(_, c) =>
      Some((CodeChange(o.address, ReadCode(db, o), o.codeHash), o.(code := Some(c), codeHash := db.hashOf(c), dirtyCode := true)))
    case OpSetState(_, k, w) =>
      Some((StorageChange(o.address, k, ReadWord(o, k)), o.(cached := o.cached[k := w], dirty := o.dirty[k := w])))
    case OpSetPdx(_, k, b) =>
      Some((PdxStorageChange(o.address, k, ReadPdx(o, k)),
            o.(pdxCached := o.pdxCached[k := b], pdxDirty := o.pdxDirty[k := b])))
  }

  lemma SetterUndone(db: Db, o: Object, op: Op)
    requires IsSetter(op) && SetterChange(db, o, op).Some?
    ensures var (e, o') := SetterChange(db, o, op).value;
            && NeedsObject(e) && e.account == o.address && o'.address == o.address && o'.deleted == o.deleted
            && SameObject(db, UndoObject(o', e), o)
  {
    hide SameObject, UndoObject, ReadCode, ReadWord, ReadPdx;
    match op
    case OpAddBalance(_, v) => BalanceUndone(db, o, o.balance + v);
    case OpSubBalance(_, v) => BalanceUndone(db, o, o.balance - v);
    case OpSetBalance(_, v) => BalanceUndone(db, o, v);
    case OpSetNonce(_, n) => NonceUndone(db, o, n);
    case OpSetCode(_, c) => CodeUndone(db, o, db.hashOf(c), c);
    case OpSetState(_, k, w) => StorageUndone(db, o, k, w);
    case OpSetPdx(_, k, b) => PdxUndone(db, o, k, b);
  }

  lemma SetterSplits(db: Db, s: State, o: Object, op: Op)
    requires IsSetter(op)
    ensures var c := SetterChange(db, o, op);
            Setter(db, s, o, op) ==
            if c.Some? then JournalObject(s, c.value.0, c.value.1)
            else if op.OpAddBalance? && IsEmpty(o) then Touch(s, o.address) else s
    ensures op.OpAddBalance? ==> (SetterChange(db, o, op).None? <==> op.v == 0)
  {
    hide ReadCode, ReadWord, ReadPdx, JournalObject, Touch, IsEmpty;
  }

  /** The dirty marks that a call leaves for good: a zero amount for a RIPEMD account that
      is empty or absent. */
  ghost function TouchesOf(db: Db, s: State, op: Op): (n: nat)
  {
    if op.OpAddBalance? && op.v == 0 && op.a == RIPEMD && (Live(db, s, op.a).None? || IsEmpty(Live(db, s, op.a).value))
    then 1 else 0
  }

  ghost function TouchesIn(db: Db, s: State, ops: seq<Op>): (n: nat)
    requires Run(db, s, ops).Some?
    decreases |ops|
  {
    if ops == [] then 0
    else TouchesOf(db, s, ops[0]) + TouchesIn(db, Step(db, s, ops[0]).value, ops[1..])
  }

  /** The setters keep the invariant. */
  lemma SetterKeepsInv(db: Db, s: State, op: Op, hist: seq<State>, views: map<nat, State>, touches: nat)
    returns (hist': seq<State>, touches': nat)
    requires Inv(db, s, hist, views, touches) && IsSetter(op)
    ensures Step(db, s, op).Some? && Inv(db, Step(db, s, op).value, hist', views, touches')
    ensures touches' == touches + TouchesOf(db, s, op)
  {
    hide Inv, SameObject, UndoObject, SetterChange, Setter, GetOrNew, Live, IsEmpty, JournalObject, Touch;
    var s1 := GetOrNew(db, s, op.a);
    var h1 := GetOrNewKeepsInv(db, s, op.a, hist, views, touches);
    var o := s1.objects[op.a];
    LiveNotDeleted(db, s1, op.a);
    EmptyIs(db, s, op.a);
    SetterSplits(db, s1, o, op);
    var c := SetterChange(db, o, op);
    hist', touches' := h1 + [Setter(db, s1, o, op)], touches;
    if c.Some? {
      SetterUndone(db, o, op);
      ObjectChangeKeepsInv(db, s1, c.value.0, o, c.value.1, h1, views, touches);
    } else if op.OpAddBalance? && IsEmpty(o) {
      touches' := TouchKeepsInv(db, s1, op.a, h1, views, touches);
    } else {
      hist' := h1;
    }
  }

  /** The object is empty if it was, or if there was none. */
  lemma EmptyIs(db: Db, s: State, a: Address)
    ensures a in GetOrNew(db, s, a).objects
    ensures IsEmpty(GetOrNew(db, s, a).objects[a]) <==> Live(db, s, a).None? || IsEmpty(Live(db, s, a).value)
  {
  }

  lemma LiveNotDeleted(db: Db, s: State, a: Address)
    requires a in s.objects && Live(db, s, a) == Some(s.objects[a])
    ensures !s.objects[a].deleted
  {
  }

  /** touch: RIPEMD gets a dirty mark that no revert takes back. */
  lemma TouchKeepsInv(db: Db, s: State, a: Address, hist: seq<State>, views: map<nat, State>, touches: nat)
    returns (touches': nat)
    requires Inv(db, s, hist, views, touches)
    ensures Inv(db, Touch(s, a), hist + [Touch(s, a)], views, touches')
    ensures touches' == if a == RIPEMD then touches + 1 else touches
  {
    hide Revised, History, LeadsBack, SameView;
    TouchJournaled(db, s, a);
    AppendCounted(s, TouchChange(a), touches);
    touches' := if a == RIPEMD then touches + 1 else touches;
    assert Counted(Touch(s, a).dirties, Touch(s, a).entries, touches') by {
      var s1 := Append(s, TouchChange(a));
      assert forall b :: DirtyCount(s1.dirties, b) == Count(s1.entries, b) + if b == RIPEMD then touches else 0;
    }
    JournaledKeepsInv(db, s, Touch(s, a), TouchChange(a), hist, views, touches, touches');
  }

  lemma SuicideKeepsInv(db: Db, s: State, a: Address, hist: seq<State>, views: map<nat, State>, touches: nat)
    returns (hist': seq<State>)
    requires Inv(db, s, hist, views, touches)
    ensures Inv(db, Suicide(db, s, a), hist', views, touches)
  {
    hide Revised, History, LeadsBack, SameView, Counted;
    LoadKeepsView(db, s, a);
    QuietKeepsInv(db, s, Load(db, s, a), hist, views, touches);
    var o := Live(db, s, a);
    if o.None? {
      hist' := hist;
    } else {
      BalanceUndone(db, o.value, 0);
      ObjectChangeKeepsInv(db, Load(db, s, a), SuicideChange(a, o.value.suicided, o.value.balance), o.value,
                           o.value.(suicided := true, balance := 0), hist, views, touches);
      hist' := hist + [Suicide(db, s, a)];
    }
  }

  lemma SnapshotKeepsInv(db: Db, s: State, hist: seq<State>, views: map<nat, State>, touches: nat)
    requires Inv(db, s, hist, views, touches)
    ensures Inv(db, Snapshot(s), hist, views[s.nextRevisionId := s], touches)
  {
    hide Counted, LeadsBack, ReadCode, ReadWord, ReadPdx;
    var s', v := Snapshot(s), views[s.nextRevisionId := s];
    ViewRefl(db, s', s);
    ViewTrans(db, s', s, hist[|s.entries|]);
    ViewSym(db, s, hist[|s.entries|]);
    WellFormedFields(db, s, s');
    hide SameView, WellFormed;
    forall i | 0 <= i < |s'.revisions|
      ensures Viewed(db, s'.revisions[i], s', hist, v)
    {
      assert i < |s.revisions| ==> Viewed(db, s.revisions[i], s, hist, views);
    }
  }

  /** RevertToSnapshot panics exactly when the id is not on the stack of snapshots;
      otherwise every undo meets a live object and the view of the snapshot is back. */
  lemma RevertKeepsInv(db: Db, s: State, id: nat, hist: seq<State>, views: map<nat, State>, touches: nat)
    returns (hist': seq<State>)
    requires Inv(db, s, hist, views, touches)
    ensures RevertToSnapshot(db, s, id).Some? <==> exists i :: 0 <= i < |s.revisions| && s.revisions[i].id == id
    ensures RevertToSnapshot(db, s, id).Some? ==>
              && Inv(db, RevertToSnapshot(db, s, id).value, hist', views, touches)
              && id in views && SameView(db, RevertToSnapshot(db, s, id).value, views[id])
  {
    hide WellFormed, SameView, Counted, Undo, LeadsBack;
    var i := Search(s.revisions, id);
    hist' := hist;
    if i < |s.revisions| && s.revisions[i].id == id {
      var n := s.revisions[i].journalIndex;
      assert Viewed(db, s.revisions[i], s, hist, views);
      RevertToKeepsHistory(db, s, hist, n);
      RevertToCounted(db, s, n, touches);
      var r := RevertTo(db, s, n).value;
      hist' := hist[..n + 1];
      var r' := r.(revisions := s.revisions[..i]);
      ViewFields(db, r, r', hist[n]);
      ViewTrans(db, r', hist[n], views[id]);
      WellFormedFields(db, r, r');
      forall j | 0 <= j < i
        ensures Viewed(db, r'.revisions[j], r', hist', views)
      {
        assert Viewed(db, s.revisions[j], s, hist, views);
      }
      assert forall j :: 0 <= j < |r'.entries| ==> LeadsBack(db, hist[j + 1], s.entries[j], hist[j]);
    }
  }

  lemma StepKeepsInv(db: Db, s: State, op: Op, hist: seq<State>, views: map<nat, State>, touches: nat)
    returns (hist': seq<State>, views': map<nat, State>, touches': nat)
    requires Inv(db, s, hist, views, touches) && Step(db, s, op).Some?
    ensures Inv(db, Step(db, s, op).value, hist', views', touches') && touches' == touches + TouchesOf(db, s, op)
    ensures forall id :: id in views ==> id in views' && views'[id] == views[id]
    ensures op.OpSnapshot? ==> s.nextRevisionId in views' && views'[s.nextRevisionId] == s
  {
    hide WellFormed, SameView, Counted, Undo, LeadsBack, History, Revised, SameObject, GetOrNew, Setter, RevertToSnapshot;
    hist', views', touches' := hist, views, touches;
    if IsSetter(op) {
      hist', touches' := SetterKeepsInv(db, s, op, hist, views, touches);
    } else {
      match op
      case OpSuicide(a) => hist' := SuicideKeepsInv(db, s, a, hist, views, touches);
      case OpSnapshot =>
        SnapshotKeepsInv(db, s, hist, views, touches);
        views' := views[s.nextRevisionId := s];
      case OpRevert(id) => hist' := RevertKeepsInv(db, s, id, hist, views, touches);
      case _ => hist' := SimpleKeepsInv(db, s, op, hist, views, touches);
    }
  }

  /** Reads, account creation, refunds and preimages. */
  lemma SimpleKeepsInv(db: Db, s: State, op: Op, hist: seq<State>, views: map<nat, State>, touches: nat)
    returns (hist': seq<State>)
    requires Inv(db, s, hist, views, touches)
    requires op.OpRead? || op.OpReadState? || op.OpReadCode? || op.OpCreateAccount? || op.OpAddRefund? || op.OpAddPreimage?
    ensures Step(db, s, op).Some? && Inv(db, Step(db, s, op).value, hist', views, touches)
  {
    hide SameView, Counted, Undo, LeadsBack, History, Revised, SameObject, ReadCode, ReadWord;
    var s' := Step(db, s, op).value;
    hist' := hist;
    match op
    case OpRead(a) =>
      LoadKeepsView(db, s, a);
      QuietKeepsInv(db, s, s', hist, views, touches);
    case OpReadState(a, k) =>
      var o := Live(db, s, a);
      if o.Some? {
        StorageUndone(db, o.value, k, 0);
        CacheQuiet(db, s, a, o.value, o.value.(cached := o.value.cached[k := ReadWord(o.value, k)]));
        QuietKeepsInv(db, s, s', hist, views, touches);
      }
    case OpReadCode(a) =>
      var o := Live(db, s, a);
      if o.Some? {
        CodeCached(db, o.value);
        CacheQuiet(db, s, a, o.value, o.value.(code := ReadCode(db, o.value)));
        QuietKeepsInv(db, s, s', hist, views, touches);
      }
    case OpCreateAccount(a) =>
      var e := if Live(db, s, a).None? then CreateObject(a) else ResetObject(Live(db, s, a).value);
      CreateJournaled(db, s, a);
      AppendCounted(Load(db, s, a), e, touches);
      JournaledKeepsInv(db, s, s', e, hist, views, touches, touches);
      hist' := hist + [s'];
    case OpAddRefund(gas) =>
      RefundJournaled(db, s, gas);
      AppendCounted(s, RefundChange(s.refund), touches);
      JournaledKeepsInv(db, s, s', RefundChange(s.refund), hist, views, touches, touches);
      hist' := hist + [s'];
    case OpAddPreimage(h, b) =>
      if h !in s.preimages {
        PreimageJournaled(db, s, h, b);
        AppendCounted(s, AddPreimageChange(h), touches);
        JournaledKeepsInv(db, s, s', AddPreimageChange(h), hist, views, touches, touches);
        hist' := hist + [s'];
      }
  }

  // ----- Whole runs

  /** A sequence of calls; None once one of them panics. */
  function Run(db: Db, s: State, ops: seq<Op>): (r: Option<State>)
    decreases |ops|
  {
    if ops == [] then Some(s)
    else
      var s' := Step(db, s, ops[0]);
      if s'.None? then None else Run(db, s'.value, ops[1..])
  }

  lemma {:induction false} RunKeepsInv(db: Db, s: State, ops: seq<Op>, hist: seq<State>, views: map<nat, State>, touches: nat)
    returns (hist': seq<State>, views': map<nat, State>, touches': nat)
    requires Inv(db, s, hist, views, touches) && Run(db, s, ops).Some?
    ensures Inv(db, Run(db, s, ops).value, hist', views', touches') && touches' == touches + TouchesIn(db, s, ops)
    ensures forall id :: id in views ==> id in views' && views'[id] == views[id]
    decreases |ops|
  {
    hide Inv, Step;
    hist', views', touches' := hist, views, touches;
    if ops != [] {
      var h, v, t := StepKeepsInv(db, s, ops[0], hist, views, touches);
      hist', views', touches' := RunKeepsInv(db, Step(db, s, ops[0]).value, ops[1..], h, v, t);
    }
  }

  /** New: no live objects, an empty journal. */
  function NewState(): (s: State)
  {
    State(map[], 0, map[], [], map[], [], 0)
  }

  lemma NewStateInv(db: Db)
    ensures Inv(db, NewState(), [NewState()], map[], 0)
  {
    ViewRefl(db, NewState(), NewState());
  }

  // ----- Which snapshots can still be reverted to

  ghost predicate OnStack(s: State, id: nat)
  {
    exists i :: 0 <= i < |s.revisions| && s.revisions[i].id == id
  }

  ghost predicate Ordered(s: State)
  {
    && (forall i, j :: 0 <= i < j < |s.revisions| ==> s.revisions[i].id < s.revisions[j].id)
    && (forall i :: 0 <= i < |s.revisions| ==> s.revisions[i].id < s.nextRevisionId)
  }

  /** The call reverts to the snapshot or to one before it. */
  predicate Discards(op: Op, id: nat)
  {
    op.OpRevert? && op.id <= id
  }

  lemma InvOrdered(db: Db, s: State, hist: seq<State>, views: map<nat, State>, touches: nat)
    requires Inv(db, s, hist, views, touches)
    ensures Ordered(s)
  {
    hide WellFormed, Counted, SameView, LeadsBack;
    forall i | 0 <= i < |s.revisions|
      ensures s.revisions[i].id < s.nextRevisionId
    {
      assert Viewed(db, s.revisions[i], s, hist, views);
    }
  }

  lemma {:induction false} RevertToRevisions(db: Db, s: State, n: nat)
    requires RevertTo(db, s, n).Some?
    ensures RevertTo(db, s, n).value.revisions == s.revisions && RevertTo(db, s, n).value.nextRevisionId == s.nextRevisionId
    decreases |s.entries|
  {
    hide Undo, Undoable;
    if |s.entries| > n {
      UndoRest(db, s, s.entries[|s.entries| - 1]);
      RevertToRevisions(db, RevertLast(db, s), n);
    }
  }

  /** Only taking a snapshot and reverting touch the stack. */
  lemma StepRevisions(db: Db, s: State, op: Op)
    requires Step(db, s, op).Some? && !op.OpRevert? && !op.OpSnapshot?
    ensures Step(db, s, op).value.revisions == s.revisions && Step(db, s, op).value.nextRevisionId == s.nextRevisionId
  {
    hide Live, NewObject, ReadWord, ReadPdx, ReadCode, Bump;
    if IsSetter(op) {
      var s1 := GetOrNew(db, s, op.a);
      assert s1.revisions == s.revisions && s1.nextRevisionId == s.nextRevisionId;
      SetterRevisions(db, s1, s1.objects[op.a], op);
      hide GetOrNew, Setter;
    }
  }

  lemma SetterRevisions(db: Db, s: State, o: Object, op: Op)
    requires IsSetter(op)
    ensures Setter(db, s, o, op).revisions == s.revisions && Setter(db, s, o, op).nextRevisionId == s.nextRevisionId
  {
    hide Bump, ReadWord, ReadPdx, ReadCode;
  }

  lemma RevertKeepsId(db: Db, s: State, to: nat, id: nat)
    requires RevertToSnapshot(db, s, to).Some? && Ordered(s)
    ensures var s' := RevertToSnapshot(db, s, to).value;
            (OnStack(s', id) <==> OnStack(s, id) && id < to) && s'.nextRevisionId == s.nextRevisionId
  {
    var s', i := RevertToSnapshot(db, s, to).value, Search(s.revisions, to);
    RevertToRevisions(db, s, s.revisions[i].journalIndex);
    hide RevertTo;
    assert s'.revisions == s.revisions[..i];
    if OnStack(s, id) && id < to {
      var j :| 0 <= j < |s.revisions| && s.revisions[j].id == id;
      assert j < i && s'.revisions[j].id == id;
    }
  }

  /** A snapshot leaves the stack exactly when a call discards it. */
  lemma StepKeepsId(db: Db, s: State, op: Op, id: nat)
    requires Step(db, s, op).Some? && Ordered(s) && id < s.nextRevisionId
    ensures OnStack(Step(db, s, op).value, id) <==> OnStack(s, id) && !Discards(op, id)
    ensures id < Step(db, s, op).value.nextRevisionId
  {
    var s' := Step(db, s, op).value;
    if op.OpRevert? {
      RevertKeepsId(db, s, op.id, id);
    } else if op.OpSnapshot? {
      assert forall j :: 0 <= j < |s.revisions| ==> s'.revisions[j] == s.revisions[j];
    } else {
      StepRevisions(db, s, op);
      hide Step;
    }
  }

  lemma {:induction false} RunKeepsId(db: Db, s: State, ops: seq<Op>, id: nat, hist: seq<State>, views: map<nat, State>, touches: nat)
    requires Inv(db, s, hist, views, touches) && Run(db, s, ops).Some? && id < s.nextRevisionId
    ensures OnStack(Run(db, s, ops).value, id) <==> OnStack(s, id) && forall op :: op in ops ==> !Discards(op, id)
    decreases |ops|
  {
    hide Inv, Step, OnStack, Ordered;
    if ops != [] {
      var s' := Step(db, s, ops[0]).value;
      InvOrdered(db, s, hist, views, touches);
      StepKeepsId(db, s, ops[0], id);
      var h, v, t := StepKeepsInv(db, s, ops[0], hist, views, touches);
      RunKeepsId(db, s', ops[1..], id, h, v, t);
      assert forall op :: op in ops <==> op == ops[0] || op in ops[1..];
    }
  }

  /** The theorem of snapshots: take one at any point of any run and make any calls after
      it, including other snapshots and reverts. Reverting to it does not panic if and
      only if none of those calls reverted to it or past it, and then no getter can tell
      the result from the state it was taken in. */
  lemma RevertRestores(db: Db, before: seq<Op>, after: seq<Op>)
    requires Run(db, NewState(), before).Some?
    requires Run(db, Snapshot(Run(db, NewState(), before).value), after).Some?
    ensures var s := Run(db, NewState(), before).value;
            var id, s' := s.nextRevisionId, Run(db, Snapshot(s), after).value;
            && (RevertToSnapshot(db, s', id).Some? <==> forall op :: op in after ==> !Discards(op, id))
            && (RevertToSnapshot(db, s', id).Some? ==> SameView(db, RevertToSnapshot(db, s', id).value, s))
  {
    hide Inv, SameView, RevertToSnapshot;
    NewStateInv(db);
    var s := Run(db, NewState(), before).value;
    var h, v, t := RunKeepsInv(db, NewState(), before, [NewState()], map[], 0);
    SnapshotKeepsInv(db, s, h, v, t);
    var id := s.nextRevisionId;
    assert Snapshot(s).revisions[|s.revisions|].id == id;
    RunKeepsId(db, Snapshot(s), after, id, h, v[id := s], t);
    var h', v', t' := RunKeepsInv(db, Snapshot(s), after, h, v[id := s], t);
    assert id in v[id := s];
    var h2 := RevertKeepsInv(db, Run(db, Snapshot(s), after).value, id, h', v', t');
  }

  /** The bookkeeping of every run: dirty counters are exact, the marks included that
      RIPEMD touches leave behind, and the snapshots are strictly ordered. */
  lemma RunBookkeeping(db: Db, ops: seq<Op>)
    requires Run(db, NewState(), ops).Some?
    ensures var s := Run(db, NewState(), ops).value;
            && (forall a :: DirtyCount(s.dirties, a) == Count(s.entries, a) + if a == RIPEMD then TouchesIn(db, NewState(), ops) else 0)
            && (forall a :: a in s.dirties ==> s.dirties[a] > 0)
            && (forall i, j :: 0 <= i < j < |s.revisions| ==> s.revisions[i].id < s.revisions[j].id)
            && (forall i :: 0 <= i < |s.revisions| ==> s.revisions[i].journalIndex <= |s.entries|)
  {
    hide Step, History, WellFormed, SameView;
    NewStateInv(db);
    var h, v, t := RunKeepsInv(db, NewState(), ops, [NewState()], map[], 0);
    var s := Run(db, NewState(), ops).value;
    HistoryLength(db, s, h);
    assert forall i :: 0 <= i < |s.revisions| ==> Viewed(db, s.revisions[i], s, h, v);
  }
}
