/** StateDB, stateObject and journal as the source has them: objects on the heap that
    are updated in place, a journal whose reset entries keep pointers to the objects
    they replaced. Every method does what the value machine of StateSpec does. */
module StateDb {
  import opened Wrappers
  import Spec = StateSpec
  import opened StateSpec
  import StateJournal
  import StateLaws
  import StorageTrie

  class StateObject {
    const address: Address
    var nonce: nat
    var balance: int
    var codeHash: Hash
    var trie: map<Hash, Bytes>
    var code: Option<Bytes>
    var cachedStorage: map<Hash, StorageWord>
    var dirtyStorage: map<Hash, StorageWord>
    var pdxCachedStorage: map<Hash, Bytes>
    var pdxDirtyStorage: map<Hash, Bytes>
    var dirtyCode: bool
    var suicided: bool
    var deleted: bool

    function Value(): (o: Object)
      reads this
    {
      Object(address, nonce, balance, codeHash, trie, code, cachedStorage, dirtyStorage,
             pdxCachedStorage, pdxDirtyStorage, dirtyCode, suicided, deleted)
    }

    /** newObject */
    constructor (db: Db, a: Address, acc: Account)
      ensures address == a && Value() == NewObject(db, a, acc)
    {
      address, nonce, balance, codeHash := a, acc.nonce, acc.balance, acc.codeHash;
      trie, code := TrieAt(db, acc.root), None;
      cachedStorage, dirtyStorage, pdxCachedStorage, pdxDirtyStorage := map[], map[], map[], map[];
      dirtyCode, suicided, deleted := false, false, false;
    }

    /** GetState: a miss is read from the trie and cached. */
    method GetState(k: Hash) returns (w: StorageWord)
      modifies this`cachedStorage
      ensures w == old(ReadWord(Value(), k))
      ensures Value() == old(Value().(cached := cachedStorage[k := ReadWord(Value(), k)]))
    {
      if k in cachedStorage {
        w := cachedStorage[k];
        assert cachedStorage[k := w] == cachedStorage;
        return;
      }
      w := TrieWord(trie, k);
      cachedStorage := cachedStorage[k := w];
    }

    /** GetPDXState: a miss is not cached. */
    function GetPDXState(k: Hash): (b: Bytes)
      reads this
      ensures b == ReadPdx(Value(), k)
    {
      if k in pdxCachedStorage then pdxCachedStorage[k] else if k in trie then trie[k] else []
    }

    /** setState */
    method StoreState(k: Hash, w: StorageWord)
      modifies this`cachedStorage, this`dirtyStorage
      ensures Value() == old(Value().(cached := cachedStorage[k := w], dirty := dirtyStorage[k := w]))
    {
      cachedStorage := cachedStorage[k := w];
      dirtyStorage := dirtyStorage[k := w];
    }

    /** setPDXState */
    method StorePdx(k: Hash, b: Bytes)
      modifies this`pdxCachedStorage, this`pdxDirtyStorage
      ensures Value() == old(Value().(pdxCached := pdxCachedStorage[k := b], pdxDirty := pdxDirtyStorage[k := b]))
    {
      pdxCachedStorage := pdxCachedStorage[k := b];
      pdxDirtyStorage := pdxDirtyStorage[k := b];
    }

    /** updateTrie */
    method UpdateTrie()
      modifies this`trie, this`dirtyStorage, this`pdxDirtyStorage
      ensures Value() == StorageTrie.Flushed(old(Value()))
    {
      DrainWords();
      DrainBytes();
    }

    /** Its first loop: the dirty words are written out, in any order. */
    method DrainWords()
      modifies this`trie, this`dirtyStorage
      ensures dirtyStorage == map[] && trie == StorageTrie.Flush(old(trie), StorageTrie.Pending(old(dirtyStorage)))
    {
      hide StorageTrie.Flush, StorageTrie.Pending;
      while dirtyStorage != map[]
        invariant StorageTrie.Flush(trie, StorageTrie.Pending(dirtyStorage))
               == StorageTrie.Flush(old(trie), StorageTrie.Pending(old(dirtyStorage)))
        decreases |dirtyStorage|
      {
        var k :| k in dirtyStorage;
        ghost var d, t := dirtyStorage, trie;
        var w := dirtyStorage[k];
        dirtyStorage := dirtyStorage - {k};
        if w == 0 {
          trie := trie - {k};
        } else {
          trie := trie[k := StorageTrie.Stored(w)];
        }
        StorageTrie.PendingStep(d, k);
        StorageTrie.FlushStep(t, StorageTrie.Pending(d), k);
      }
      StorageTrie.PendingNothing();
      StorageTrie.FlushNothing(trie);
    }

    /** Its second loop, over the raw values. */
    method DrainBytes()
      modifies this`trie, this`pdxDirtyStorage
      ensures pdxDirtyStorage == map[] && trie == StorageTrie.Flush(old(trie), old(pdxDirtyStorage))
    {
      hide StorageTrie.Flush;
      while pdxDirtyStorage != map[]
        invariant StorageTrie.Flush(trie, pdxDirtyStorage) == StorageTrie.Flush(old(trie), old(pdxDirtyStorage))
        decreases |pdxDirtyStorage|
      {
        var k :| k in pdxDirtyStorage;
        ghost var p, t := pdxDirtyStorage, trie;
        var b := pdxDirtyStorage[k];
        pdxDirtyStorage := pdxDirtyStorage - {k};
        if |b| == 0 {
          trie := trie - {k};
        } else {
          trie := trie[k := b];
        }
        StorageTrie.FlushStep(t, p, k);
      }
      StorageTrie.FlushNothing(trie);
    }

    /** Code: loaded code is kept. */
    method Code(db: Db) returns (c: Option<Bytes>)
      modifies this`code
      ensures c == old(ReadCode(db, Value()))
      ensures Value() == old(Value().(code := ReadCode(db, Value())))
    {
      if code.Some? || codeHash == EMPTY_CODE {
        return code;
      }
      c := Some(if codeHash in db.codes then db.codes[codeHash] else []);
      code := c;
    }
  }

  /** A journal entry; only a reset refers to an object. */
  datatype JournalEntry = Plain(entry: Entry) | Reset(prev: StateObject)

  class StateDB {
    const db: Db
    var stateObjects: map<Address, StateObject>
    var refund: nat
    var preimages: map<Hash, Bytes>
    var journal: seq<JournalEntry>
    var dirties: map<Address, int>
    var validRevisions: seq<Revision>
    var nextRevisionId: nat

    /** New */
    constructor (db: Db)
      ensures Valid() && this.db == db && stateObjects == map[] && journal == []
      ensures Model() == State(map[], 0, map[], [], map[], [], 0)
    {
      this.db := db;
      stateObjects, refund, preimages, journal, dirties := map[], 0, map[], [], map[];
      validRevisions, nextRevisionId := [], 0;
    }

    ghost function Footprint(): (r: set<StateObject>)
      reads `stateObjects, `journal
    {
      stateObjects.Values + set i | 0 <= i < |journal| && journal[i].Reset? :: journal[i].prev
    }

    /** Live objects sit under their address. An object kept by a reset entry is out of
        the live set, and kept by that entry alone, so nothing can change it. */
    ghost predicate Valid()
      reads `stateObjects, `journal, `validRevisions, `nextRevisionId
    {
      && (forall a :: a in stateObjects ==> stateObjects[a].address == a)
      && (forall i :: 0 <= i < |journal| && journal[i].Plain? ==> !journal[i].entry.ResetObject?)
      && (forall i :: 0 <= i < |journal| && journal[i].Reset? ==> Kept(i))
      && (forall i, j :: 0 <= i < j < |validRevisions| ==> validRevisions[i].id < validRevisions[j].id)
      && (forall i :: 0 <= i < |validRevisions| ==> validRevisions[i].id < nextRevisionId)
    }

    ghost predicate Kept(i: nat)
      requires i < |journal| && journal[i].Reset?
      reads `stateObjects, `journal
    {
      && (forall a :: a in stateObjects ==> stateObjects[a] != journal[i].prev)
      && (forall j :: 0 <= j < |journal| && j != i && journal[j].Reset? ==> journal[j].prev != journal[i].prev)
    }

    ghost function EntryValue(i: nat): (e: Entry)
      requires i < |journal|
      reads `stateObjects, `journal, Footprint()
    {
      match journal[i]
      case Plain(e) => e
      case Reset(prev) => assert prev in Footprint(); ResetObject(prev.Value())
    }

    ghost function Objects(): (m: map<Address, Object>)
      reads `stateObjects, `journal, Footprint()
    {
      map a | a in stateObjects :: assert stateObjects[a] in Footprint(); stateObjects[a].Value()
    }

    ghost function Entries(): (es: seq<Entry>)
      reads this, Footprint()
    {
      seq(|journal|, i requires 0 <= i < |journal| reads this, Footprint() => EntryValue(i))
    }

    /** The value the heap stands for. */
    ghost function Model(): (s: State)
      reads this, Footprint()
    {
      State(Objects(), refund, preimages, Entries(), dirties, validRevisions, nextRevisionId)
    }

    lemma ModelFiled()
      requires Valid()
      ensures StateLaws.Filed(Model())
    {
    }

    /** The journal entries that were there stand for what they stood for. */
    twostate lemma SameEntries()
      requires |old(journal)| <= |journal| && journal[..|old(journal)|] == old(journal)
      requires forall i :: 0 <= i < |old(journal)| && old(journal)[i].Reset? ==> unchanged(old(journal)[i].prev)
      ensures Entries()[..|old(journal)|] == old(Entries())
    {
      forall i | 0 <= i < |old(journal)|
        ensures EntryValue(i) == old(EntryValue(i))
      {
        assert journal[i] == journal[..|old(journal)|][i];
      }
    }

    /** The model outside the counters depends on the objects and the journal alone. */
    twostate lemma Unmoved()
      requires journal == old(journal) && stateObjects == old(stateObjects)
      requires forall x :: x in old(Footprint()) ==> unchanged(x)
      ensures Objects() == old(Objects()) && Entries() == old(Entries())
    {
      forall a | a in stateObjects
        ensures Objects()[a] == old(Objects())[a]
      {
        assert stateObjects[a] in old(Footprint());
      }
      forall i | 0 <= i < |journal| && journal[i].Reset?
        ensures unchanged(journal[i].prev)
      {
        assert journal[i].prev in old(Footprint());
      }
      SameEntries();
    }

    /** Updating one live object updates its entry of the model and nothing else. */
    twostate lemma Written(o: StateObject)
      requires old(Valid()) && o.address in old(stateObjects) && old(stateObjects)[o.address] == o
      requires unchanged(this) && forall x :: x in old(Footprint()) && x != o ==> unchanged(x)
      ensures Valid() && Model() == WithObject(old(Model()), o.Value())
    {
      assert Footprint() == old(Footprint());
      forall i | 0 <= i < |journal|
        ensures EntryValue(i) == old(EntryValue(i))
      {
        if journal[i].Reset? {
          assert old(Kept(i));
          assert journal[i].prev in old(Footprint());
        }
      }
      assert Entries() == old(Entries());
      forall a | a in stateObjects
        ensures Objects()[a] == WithObject(old(Model()), o.Value()).objects[a]
      {
        assert stateObjects[a] in old(Footprint());
        if a != o.address {
          assert stateObjects[a] != o;
        }
      }
      assert Objects() == WithObject(old(Model()), o.Value()).objects;
    }

    /** journal.append of anything but a reset */
    method Append(e: Entry)
      requires Valid() && !e.ResetObject?
      modifies this`journal, this`dirties
      ensures Valid() && Model() == Spec.Append(old(Model()), e) && journal == old(journal) + [Plain(e)]
    {
      journal := journal + [Plain(e)];
      BumpFor(e);
      assert forall i :: 0 <= i < |old(journal)| ==> journal[i] == old(journal)[i];
      Grown(Plain(e));
    }

    method BumpFor(e: Entry)
      modifies this`dirties
      ensures dirties == if Dirtied(e).Some? then Bump(old(dirties), Dirtied(e).value) else old(dirties)
    {
      if Dirtied(e).Some? {
        var a := Dirtied(e).value;
        dirties := dirties[a := (if a in dirties then dirties[a] else 0) + 1];
      }
    }

    /** Appending an entry appends its value. */
    twostate lemma Grown(e: JournalEntry)
      requires old(Valid()) && Valid()
      requires journal == old(journal) + [e] && stateObjects == old(stateObjects)
      requires forall x :: x in old(Footprint()) ==> unchanged(x)
      ensures Objects() == old(Objects())
      ensures Entries() == old(Entries()) + [EntryValue(|old(journal)|)]
    {
      forall a | a in stateObjects
        ensures Objects()[a] == old(Objects())[a]
      {
        assert stateObjects[a] in old(Footprint());
      }
      forall i | 0 <= i < |old(journal)|
        ensures EntryValue(i) == old(EntryValue(i))
      {
        assert journal[i] == old(journal)[i];
        if journal[i].Reset? {
          assert journal[i].prev in old(Footprint());
        }
      }
    }

    /** getStateObject */
    method GetStateObject(a: Address) returns (o: StateObject?)
      requires Valid()
      modifies this`stateObjects
      ensures Valid() && Model() == Load(db, old(Model()), a)
      ensures o == null <==> Live(db, old(Model()), a).None?
      ensures stateObjects == old(stateObjects) || (o != null && fresh(o) && stateObjects == old(stateObjects)[a := o])
      ensures o != null ==>
                && o.address == a && a in stateObjects && stateObjects[a] == o
                && (fresh(o) || o in old(stateObjects).Values)
                && Live(db, old(Model()), a) == Some(o.Value())
    {
      if a in stateObjects {
        return if stateObjects[a].deleted then null else stateObjects[a];
      }
      if a !in db.accounts {
        return null;
      }
      o := new StateObject(db, a, db.accounts[a]);
      stateObjects := stateObjects[a := o];
      Joined(o);
    }

    method GetBalance(a: Address) returns (v: int)
      requires Valid()
      modifies this`stateObjects
      ensures Valid() && v == StateJournal.GetBalance(db, old(Model()), a) && Some(Model()) == Step(db, old(Model()), OpRead(a))
    {
      hide Objects, Entries, Valid, Live, Load;
      var o := GetStateObject(a);
      v := if o != null then o.balance else 0;
    }

    method GetState(a: Address, k: Hash) returns (w: StorageWord)
      requires Valid()
      modifies this`stateObjects, stateObjects.Values
      ensures Valid() && w == StateJournal.GetState(db, old(Model()), a, k)
      ensures Some(Model()) == Step(db, old(Model()), OpReadState(a, k))
    {
      hide Objects, Entries, Valid, Live, Load;
      var o := GetStateObject(a);
      if o == null {
        LoadNothing(db, old(Model()), a);
        return 0;
      }
      label Found:
      w := o.GetState(k);
      Written@Found(o);
    }

    method GetCode(a: Address) returns (c: Option<Bytes>)
      requires Valid()
      modifies this`stateObjects, stateObjects.Values
      ensures Valid() && c == StateJournal.GetCode(db, old(Model()), a)
      ensures Some(Model()) == Step(db, old(Model()), OpReadCode(a))
    {
      hide Objects, Entries, Valid, Live, Load;
      var o := GetStateObject(a);
      if o == null {
        LoadNothing(db, old(Model()), a);
        return None;
      }
      label Found:
      c := o.Code(db);
      Written@Found(o);
    }

    method GetPDXState(a: Address, k: Hash) returns (b: Bytes)
      requires Valid()
      modifies this`stateObjects
      ensures Valid() && b == StateJournal.GetPDXState(db, old(Model()), a, k)
      ensures Some(Model()) == Step(db, old(Model()), OpRead(a))
    {
      hide Objects, Entries, Valid, Live, Load;
      var o := GetStateObject(a);
      if o == null {
        return [];
      }
      b := o.GetPDXState(k);
    }

    /** A new object joins the live ones. */
    twostate lemma Joined(new o: StateObject)
      requires old(Valid()) && o !in old(Footprint()) && journal == old(journal)
      requires stateObjects == old(stateObjects)[o.address := o]
      requires unchanged(`validRevisions, `nextRevisionId)
      requires forall x :: x in old(Footprint()) ==> unchanged(x)
      ensures Valid() && Objects() == old(Objects())[o.address := o.Value()] && Entries() == old(Entries())
    {
      JoinedValid(o);
      hide Valid;
      forall i | 0 <= i < |journal| && journal[i].Reset?
        ensures unchanged(journal[i].prev)
      {
        assert journal[i].prev in old(Footprint());
      }
      SameEntries();
      forall a | a in stateObjects && a != o.address
        ensures Objects()[a] == old(Objects())[a]
      {
        assert stateObjects[a] in old(Footprint());
      }
    }

    twostate lemma JoinedValid(new o: StateObject)
      requires old(Valid()) && o !in old(Footprint()) && journal == old(journal)
      requires stateObjects == old(stateObjects)[o.address := o]
      requires unchanged(`validRevisions, `nextRevisionId)
      ensures Valid()
    {
      forall i | 0 <= i < |journal| && journal[i].Reset?
        ensures Kept(i)
      {
        assert old(Kept(i));
        assert journal[i].prev in old(Footprint());
      }
    }

    /** A live object gives way to a new one and is kept by a reset entry. */
    twostate lemma Replaced(prev: StateObject, new o: StateObject)
      requires old(Valid()) && o !in old(Footprint()) && o.address == prev.address
      requires prev.address in old(stateObjects) && old(stateObjects)[prev.address] == prev
      requires stateObjects == old(stateObjects)[prev.address := o] && journal == old(journal) + [Reset(prev)]
      requires unchanged(`validRevisions, `nextRevisionId)
      requires forall x :: x in old(Footprint()) ==> unchanged(x)
      ensures Valid()
      ensures Objects() == old(Objects())[o.address := o.Value()]
      ensures Entries() == old(Entries()) + [ResetObject(prev.Value())]
    {
      var n := |old(journal)|;
      assert prev in old(Footprint());
      forall i | 0 <= i < |journal| && journal[i].Reset?
        ensures Kept(i)
      {
        if i < n {
          assert journal[i] == old(journal)[i] && old(Kept(i));
          assert journal[i].prev in old(Footprint());
        } else {
          assert forall j :: 0 <= j < n && journal[j].Reset? ==> old(Kept(j)) && journal[j] == old(journal)[j];
        }
      }
      forall i | 0 <= i < n
        ensures EntryValue(i) == old(EntryValue(i))
      {
        assert journal[i] == old(journal)[i];
        if journal[i].Reset? {
          assert journal[i].prev in old(Footprint());
        }
      }
      forall a | a in stateObjects && a != o.address
        ensures Objects()[a] == old(Objects())[a]
      {
        assert stateObjects[a] in old(Footprint());
      }
    }

    /** createObject */
    method CreateObject(a: Address) returns (newobj: StateObject, prev: StateObject?)
      requires Valid()
      modifies this`stateObjects, this`journal, this`dirties
      ensures Valid() && Model() == Create(db, old(Model()), a)
      ensures fresh(newobj) && newobj.address == a && a in stateObjects && stateObjects[a] == newobj
      ensures newobj.Value() == NewObject(db, a, EmptyAccount())
      ensures prev == null <==> Live(db, old(Model()), a).None?
      ensures prev != null ==> prev != newobj && Live(db, old(Model()), a) == Some(prev.Value())
    {
      hide Load, Live, Objects, Entries, Valid;
      prev := GetStateObject(a);
      label Found:
      newobj := new StateObject(db, a, EmptyAccount());
      ghost var foot := Footprint();
      assert newobj !in foot;
      if prev == null {
        Append(Spec.CreateObject(a));
        label Appended:
        assert Footprint() <= foot;
        stateObjects := stateObjects[a := newobj];
        Joined@Appended(newobj);
      } else {
        journal := journal + [Reset(prev)];
        stateObjects := stateObjects[a := newobj];
        Replaced@Found(prev, newobj);
      }
    }

    /** CreateAccount */
    method CreateAccount(a: Address)
      requires Valid()
      modifies this`stateObjects, this`journal, this`dirties
      ensures Valid() && Model() == Spec.CreateAccount(db, old(Model()), a)
      ensures StateJournal.GetBalance(db, Model(), a) == old(StateJournal.GetBalance(db, Model(), a)) && StateLaws.SameElsewhere(db, old(Model()), Model(), a)
    {
      hide Objects, Entries, Valid;
      hide Create, Live;
      ModelFiled();
      StateLaws.CreateLaw(db, Model(), a, 0);
      var newobj, prev := CreateObject(a);
      if prev != null {
        label Before:
        newobj.balance := prev.balance;
        Written@Before(newobj);
      }
    }

    /** GetOrNewStateObject */
    method GetOrNewStateObject(a: Address) returns (o: StateObject)
      requires Valid()
      modifies this`stateObjects, this`journal, this`dirties
      ensures Valid() && Model() == GetOrNew(db, old(Model()), a)
      ensures o.address == a && a in stateObjects && stateObjects[a] == o && Model().objects[a] == o.Value()
      ensures fresh(o) || o in old(stateObjects).Values
    {
      hide Entries, Valid, Create;
      var found := GetStateObject(a);
      if found == null {
        LoadNothing(db, old(Model()), a);
        var prev;
        o, prev := CreateObject(a);
      } else {
        o := found;
      }
    }

    /** stateObject.SetBalance: journal first, then the field. */
    method SetBalanceOf(o: StateObject, v: int)
      requires Valid() && o.address in stateObjects && stateObjects[o.address] == o
      modifies this`journal, this`dirties, o`balance
      ensures Valid() && Model() == Spec.SetBalance(old(Model()), old(o.Value()), v)
    {
      hide Objects, Entries, Valid;
      Append(BalanceChange(o.address, o.balance));
      label Journaled:
      o.balance := v;
      Written@Journaled(o);
    }

    method SetBalance(a: Address, v: int)
      requires Valid()
      modifies this, stateObjects.Values
      ensures Valid() && Some(Model()) == Step(db, old(Model()), OpSetBalance(a, v))
      ensures StateJournal.GetBalance(db, Model(), a) == v && StateLaws.SameElsewhere(db, old(Model()), Model(), a)
    {
      hide Objects, Entries, Valid;
      hide GetOrNew, Spec.SetBalance;
      ModelFiled();
      StateLaws.SetLaw(db, Model(), a, v, 0);
      var o := GetOrNewStateObject(a);
      SetBalanceOf(o, v);
    }

    method AddBalance(a: Address, v: int)
      requires Valid()
      modifies this, stateObjects.Values
      ensures Valid() && Some(Model()) == Step(db, old(Model()), OpAddBalance(a, v))
      ensures StateJournal.GetBalance(db, Model(), a) == old(StateJournal.GetBalance(db, Model(), a)) + v && StateLaws.SameElsewhere(db, old(Model()), Model(), a)
    {
      hide Objects, Entries, Valid;
      hide GetOrNew, Spec.SetBalance;
      ModelFiled();
      StateLaws.AddLaw(db, Model(), a, v, 0);
      var o := GetOrNewStateObject(a);
      if v == 0 {
        if o.nonce == 0 && o.balance == 0 && o.codeHash == EMPTY_CODE {
          Touch(o.address);
        }
        return;
      }
      SetBalanceOf(o, o.balance + v);
    }

    method SubBalance(a: Address, v: int)
      requires Valid()
      modifies this, stateObjects.Values
      ensures Valid() && Some(Model()) == Step(db, old(Model()), OpSubBalance(a, v))
      ensures StateJournal.GetBalance(db, Model(), a) == old(StateJournal.GetBalance(db, Model(), a)) - v && StateLaws.SameElsewhere(db, old(Model()), Model(), a)
    {
      hide Objects, Entries, Valid;
      hide GetOrNew, Spec.SetBalance;
      ModelFiled();
      StateLaws.SubLaw(db, Model(), a, v, 0);
      var o := GetOrNewStateObject(a);
      if v == 0 {
        return;
      }
      SetBalanceOf(o, o.balance - v);
    }

    /** touch */
    method Touch(a: Address)
      requires Valid()
      modifies this`journal, this`dirties
      ensures Valid() && Model() == Spec.Touch(old(Model()), a)
    {
      hide Objects, Entries, Valid;
      Append(TouchChange(a));
      label Appended:
      if a == RIPEMD {
        dirties := dirties[a := (if a in dirties then dirties[a] else 0) + 1];
      }
      Unmoved@Appended();
    }

    method SetNonce(a: Address, n: nat)
      requires Valid()
      modifies this, stateObjects.Values
      ensures Valid() && Some(Model()) == Step(db, old(Model()), OpSetNonce(a, n))
      ensures StateJournal.GetNonce(db, Model(), a) == n && StateLaws.SameElsewhere(db, old(Model()), Model(), a)
    {
      hide Objects, Entries, Valid;
      hide GetOrNew;
      ModelFiled();
      StateLaws.NonceLaw(db, Model(), a, n, 0);
      var o := GetOrNewStateObject(a);
      Append(NonceChange(o.address, o.nonce));
      label Journaled:
      o.nonce := n;
      Written@Journaled(o);
    }

    /** stateObject.SetCode */
    method SetCodeOf(o: StateObject, h: Hash, c: Bytes)
      requires Valid() && o.address in stateObjects && stateObjects[o.address] == o
      modifies this`journal, this`dirties, o
      ensures Valid() && Model() == Spec.SetCode(db, old(Model()), old(o.Value()), h, c)
    {
      hide Objects, Entries, Valid, ReadCode;
      var prevcode := o.Code(db);
      Written(o);
      Append(CodeChange(o.address, prevcode, o.codeHash));
      label Journaled:
      ghost var cached := o.Value();
      o.code := Some(c);
      o.codeHash := h;
      o.dirtyCode := true;
      Written@Journaled(o);
      CacheOverwritten(old(Model()), CodeChange(o.address, prevcode, cached.codeHash), cached, o.Value());
    }

    method SetCode(a: Address, c: Bytes)
      requires Valid()
      modifies this, stateObjects.Values
      ensures Valid() && Some(Model()) == Step(db, old(Model()), OpSetCode(a, c))
      ensures StateJournal.GetCode(db, Model(), a) == Some(c) && StateJournal.GetCodeHash(db, Model(), a) == db.hashOf(c)
      ensures StateLaws.SameElsewhere(db, old(Model()), Model(), a)
    {
      hide Objects, Entries, Valid, GetOrNew, Spec.SetCode;
      ModelFiled();
      StateLaws.CodeLaw(db, Model(), a, c, 0);
      var o := GetOrNewStateObject(a);
      SetCodeOf(o, db.hashOf(c), c);
    }

    /** stateObject.SetState */
    method SetStateOf(o: StateObject, k: Hash, w: StorageWord)
      requires Valid() && o.address in stateObjects && stateObjects[o.address] == o
      modifies this`journal, this`dirties, o
      ensures Valid() && Model() == Spec.SetState(old(Model()), old(o.Value()), k, w)
    {
      hide Objects, Entries, Valid, ReadWord;
      var prev := o.GetState(k);
      Written(o);
      Append(StorageChange(o.address, k, prev));
      label Journaled:
      o.StoreState(k, w);
      Written@Journaled(o);
      CachedThenSet(old(Model()), old(o.Value()), k, w);
    }

    method SetState(a: Address, k: Hash, w: StorageWord)
      requires Valid()
      modifies this, stateObjects.Values
      ensures Valid() && Some(Model()) == Step(db, old(Model()), OpSetState(a, k, w))
      ensures StateJournal.GetState(db, Model(), a, k) == w && StateLaws.SameElsewhere(db, old(Model()), Model(), a)
    {
      hide Objects, Entries, Valid, GetOrNew, Spec.SetState;
      ModelFiled();
      StateLaws.WordLaw(db, Model(), a, k, w, k);
      var o := GetOrNewStateObject(a);
      SetStateOf(o, k, w);
    }

    /** stateObject.SetPDXState */
    method SetPdxOf(o: StateObject, k: Hash, b: Bytes)
      requires Valid() && o.address in stateObjects && stateObjects[o.address] == o
      modifies this`journal, this`dirties, o
      ensures Valid() && Model() == Spec.SetPdx(old(Model()), old(o.Value()), k, b)
    {
      hide Objects, Entries, Valid;
      var prev := o.GetPDXState(k);
      Append(PdxStorageChange(o.address, k, prev));
      label Journaled:
      o.StorePdx(k, b);
      Written@Journaled(o);
    }

    method SetPDXState(a: Address, k: Hash, b: Bytes)
      requires Valid()
      modifies this, stateObjects.Values
      ensures Valid() && Some(Model()) == Step(db, old(Model()), OpSetPdx(a, k, b))
      ensures StateJournal.GetPDXState(db, Model(), a, k) == b && StateLaws.SameElsewhere(db, old(Model()), Model(), a)
    {
      hide Objects, Entries, Valid, GetOrNew, Spec.SetPdx;
      ModelFiled();
      StateLaws.RawLaw(db, Model(), a, k, b, k);
      var o := GetOrNewStateObject(a);
      SetPdxOf(o, k, b);
    }

    method Suicide(a: Address) returns (ok: bool)
      requires Valid()
      modifies this, stateObjects.Values
      ensures Valid() && Model() == Spec.Suicide(db, old(Model()), a)
      ensures ok == Live(db, old(Model()), a).Some?
      ensures ok ==> StateJournal.GetBalance(db, Model(), a) == 0 && StateJournal.HasSuicided(db, Model(), a)
      ensures StateLaws.SameElsewhere(db, old(Model()), Model(), a)
    {
      hide Objects, Entries, Valid;
      hide Live, Load, StateJournal.GetBalance, StateJournal.HasSuicided, StateLaws.SameElsewhere;
      ModelFiled();
      StateLaws.SuicideShows(db, Model(), a);
      var o := GetStateObject(a);
      if o == null {
        return false;
      }
      Append(SuicideChange(a, o.suicided, o.balance));
      label Journaled:
      o.suicided := true;
      o.balance := 0;
      Written@Journaled(o);
      return true;
    }

    method AddRefund(gas: nat)
      requires Valid()
      modifies this`journal, this`dirties, this`refund
      ensures Valid() && Model() == Spec.AddRefund(old(Model()), gas)
      ensures refund == (old(refund) + gas) % 0x1_0000_0000_0000_0000
    {
      hide Objects, Entries, Valid;
      Append(RefundChange(refund));
      label Appended:
      refund := (refund + gas) % UINT64;
      Unmoved@Appended();
    }

    method AddPreimage(h: Hash, b: Bytes)
      requires Valid()
      modifies this`journal, this`dirties, this`preimages
      ensures Valid() && Model() == Spec.AddPreimage(old(Model()), h, b)
      ensures preimages == if h in old(preimages) then old(preimages) else old(preimages)[h := b]
    {
      hide Objects, Entries, Valid;
      if h !in preimages {
        Append(AddPreimageChange(h));
        label Appended:
        preimages := preimages[h := b];
        Unmoved@Appended();
      }
    }

    /** Deleting a live object. */
    twostate lemma Removed(a: Address)
      requires old(Valid()) && journal == old(journal) && stateObjects == old(stateObjects) - {a}
      requires unchanged(`validRevisions, `nextRevisionId)
      requires forall x :: x in old(Footprint()) ==> unchanged(x)
      ensures Valid() && Objects() == old(Objects()) - {a} && Entries() == old(Entries())
      ensures Footprint() <= old(Footprint())
    {
      forall i | 0 <= i < |journal| && journal[i].Reset?
        ensures Kept(i) && unchanged(journal[i].prev)
      {
        assert old(Kept(i));
        assert journal[i].prev in old(Footprint());
      }
      SameEntries();
      forall b | b in stateObjects
        ensures Objects()[b] == old(Objects())[b]
      {
        assert stateObjects[b] in old(Footprint());
      }
    }

    /** Dropping the last entry; the object of a reset entry is then kept by nobody. */
    twostate lemma Popped()
      requires old(Valid()) && old(journal) != [] && journal == old(journal)[..|old(journal)| - 1]
      requires stateObjects == old(stateObjects) && unchanged(`validRevisions, `nextRevisionId)
      requires forall x :: x in old(Footprint()) ==> unchanged(x)
      ensures Valid() && Objects() == old(Objects())
      ensures Entries() == old(Entries())[..|old(journal)| - 1]
      ensures old(Entries())[|old(journal)| - 1] == ValueOf(old(journal)[|old(journal)| - 1])
      ensures old(journal)[|old(journal)| - 1].Reset? ==> old(journal)[|old(journal)| - 1].prev !in Footprint()
      ensures Footprint() <= old(Footprint())
    {
      var n := |old(journal)| - 1;
      forall i | 0 <= i < n
        ensures journal[i] == old(journal)[i] && EntryValue(i) == old(EntryValue(i))
        ensures journal[i].Reset? ==> Kept(i)
      {
        if journal[i].Reset? {
          assert old(Kept(i));
          assert journal[i].prev in old(Footprint());
        }
      }
      forall a | a in stateObjects
        ensures Objects()[a] == old(Objects())[a]
      {
        assert stateObjects[a] in old(Footprint());
      }
      if old(journal)[n].Reset? {
        assert old(Kept(n));
        assert old(journal)[n].prev in old(Footprint());
      }
    }

    /** What an entry taken off the journal stands for. */
    ghost function ValueOf(j: JournalEntry): (e: Entry)
      reads if j.Reset? then {j.prev} else {}
    {
      if j.Plain? then j.entry else ResetObject(j.prev.Value())
    }

    /** revert of the entries that restore a field of a live object */
    method RevertObject(e: Entry) returns (ok: bool)
      requires Valid() && (NeedsObject(e) || e.SuicideChange?)
      modifies this`stateObjects, stateObjects.Values
      ensures Valid() && ok == Undoable(db, old(Model()), e)
      ensures ok ==> Model() == Undo(db, old(Model()), e)
      ensures forall x :: x in Footprint() ==> fresh(x) || x in old(Footprint())
    {
      hide Objects, Entries, Valid, Load, Live;
      var o := GetStateObject(e.account);
      if o == null {
        return e.SuicideChange?;
      }
      label Found:
      RestoreField(o, e);
      Written@Found(o);
      return true;
    }

    /** The field an entry's revert writes back. */
    method RestoreField(o: StateObject, e: Entry)
      requires NeedsObject(e) || e.SuicideChange?
      modifies o
      ensures o.Value() == UndoObject(old(o.Value()), e)
    {
      match e
      case SuicideChange(_, prev, bal) => o.suicided := prev; o.balance := bal;
      case BalanceChange(_, bal) => o.balance := bal;
      case NonceChange(_, n) => o.nonce := n;
      case StorageChange(_, k, w) => o.StoreState(k, w);
      case PdxStorageChange(_, k, b) => o.StorePdx(k, b);
      case CodeChange(_, c, h) => o.code := c; o.codeHash := h; o.dirtyCode := true;
    }

    /** revert of one entry, already taken off the journal */
    method RevertEntry(j: JournalEntry) returns (ok: bool)
      requires Valid() && (if j.Plain? then !j.entry.ResetObject? else j.prev !in Footprint())
      modifies this`stateObjects, this`refund, this`preimages, stateObjects.Values
      ensures Valid() && ok == old(Undoable(db, Model(), ValueOf(j)))
      ensures ok ==> Model() == old(Undo(db, Model(), ValueOf(j)))
      ensures forall x :: x in Footprint() ==> fresh(x) || x in old(Footprint()) || (j.Reset? && x == j.prev)
    {
      hide Objects, Entries, Valid, Load, Live;
      ok := true;
      if j.Reset? {
        stateObjects := stateObjects[j.prev.address := j.prev];
        Joined(j.prev);
      } else if j.entry.CreateObject? {
        stateObjects := stateObjects - {j.entry.account};
        Removed(j.entry.account);
      } else if j.entry.RefundChange? {
        refund := j.entry.prevRefund;
        Unmoved();
      } else if j.entry.AddPreimageChange? {
        preimages := preimages - {j.entry.hash};
        Unmoved();
      } else if !j.entry.TouchChange? {
        ok := RevertObject(j.entry);
      }
    }

    /** The dirty count of a reverted entry goes down and disappears at zero. */
    method DropDirty(e: Entry)
      modifies this`dirties
      ensures dirties == Undirty(old(dirties), e)
    {
      if Dirtied(e).Some? {
        var a := Dirtied(e).value;
        dirties := dirties[a := (if a in dirties then dirties[a] else 0) - 1];
        if dirties[a] == 0 {
          dirties := dirties - {a};
          assert dirties == old(dirties) - {a};
        }
      }
    }

    /** Takes the last entry off the journal. */
    method Pop() returns (j: JournalEntry)
      requires Valid() && journal != []
      modifies this`journal
      ensures Valid() && Model() == old(Model()).(entries := Model().entries)
      ensures old(Model()).entries == Model().entries + [ValueOf(j)] && |journal| == old(|journal|) - 1
      ensures if j.Plain? then !j.entry.ResetObject? else j.prev !in Footprint() && j.prev in old(Footprint())
      ensures Footprint() <= old(Footprint())
    {
      var n := |journal| - 1;
      j := journal[n];
      assert j.Plain? ==> !j.entry.ResetObject?;
      journal := journal[..n];
      Popped();
      hide Valid, Objects;
      assert old(Entries()) == old(Entries())[..n] + [old(Entries())[n]];
    }

    /** One pass of the loop of journal.revert. */
    method RevertLast() returns (ok: bool)
      requires Valid() && Model().entries != [] && journal != []
      modifies this`stateObjects, this`refund, this`preimages, this`journal, this`dirties, stateObjects.Values
      ensures Valid() && validRevisions == old(validRevisions) && |journal| < old(|journal|)
      ensures ok == Undoable(db, old(Model()), old(Model()).entries[|old(Model()).entries| - 1])
      ensures ok ==> Model() == Spec.RevertLast(db, old(Model()))
      ensures forall x :: x in Footprint() ==> fresh(x) || x in old(Footprint())
    {
      hide Valid, Objects, Entries, Undo, Undoable, Undirty, Dirtied;
      var j := Pop();
      ghost var s, value := old(Model()), ValueOf(j);
      UndoIgnoresJournal(db, s, value, Model().entries);
      ok := RevertEntry(j);
      if ok {
        label Reverted:
        DropDirty(if j.Plain? then j.entry else ResetObject(j.prev.Value()));
        Unmoved@Reverted();
      }
    }

    /** journal.revert */
    method Revert(n: nat) returns (ok: bool)
      requires Valid()
      modifies this, Footprint()
      ensures Valid() && validRevisions == old(validRevisions)
      ensures ok == RevertTo(db, old(Model()), n).Some?
      ensures ok ==> RevertTo(db, old(Model()), n) == Some(Model())
    {
      hide Valid, Objects, Spec.RevertLast, Undoable;
      ok := true;
      while ok && |journal| > n
        invariant Valid() && validRevisions == old(validRevisions)
        invariant forall x :: x in Footprint() ==> fresh(x) || x in old(Footprint())
        invariant ok ==> RevertTo(db, Model(), n) == RevertTo(db, old(Model()), n)
        invariant !ok ==> RevertTo(db, old(Model()), n).None?
        decreases |journal|, ok
      {
        ok := RevertLast();
      }
    }

    /** sort.Search over the revision ids */
    method FindRevision(id: nat) returns (i: nat)
      requires Valid()
      ensures i == Search(validRevisions, id)
    {
      i := 0;
      var j := |validRevisions|;
      while i < j
        invariant 0 <= i <= j <= |validRevisions|
        invariant forall k :: 0 <= k < i ==> validRevisions[k].id < id
        invariant forall k :: j <= k < |validRevisions| ==> validRevisions[k].id >= id
      {
        var h := (i + j) / 2;
        if validRevisions[h].id < id {
          i := h + 1;
        } else {
          j := h;
        }
      }
      SearchUnique(validRevisions, id, i);
    }

    /** RevertToSnapshot; false is one of its panics. */
    method RevertToSnapshot(id: nat) returns (ok: bool)
      requires Valid()
      modifies this, Footprint()
      ensures Valid()
      ensures ok == Spec.RevertToSnapshot(db, old(Model()), id).Some?
      ensures ok ==> Some(Model()) == Spec.RevertToSnapshot(db, old(Model()), id)
    {
      hide RevertTo, Objects, Entries;
      var i := FindRevision(id);
      if i == |validRevisions| || validRevisions[i].id != id {
        return false;
      }
      ok := Revert(validRevisions[i].journalIndex);
      if ok {
        label Reverted:
        validRevisions := validRevisions[..i];
        Unmoved@Reverted();
      }
    }

    method Snapshot() returns (id: nat)
      requires Valid()
      modifies this`validRevisions, this`nextRevisionId
      ensures Valid() && id == old(nextRevisionId) && Model() == Spec.Snapshot(old(Model()))
    {
      id := nextRevisionId;
      nextRevisionId := nextRevisionId + 1;
      validRevisions := validRevisions + [Revision(id, |journal|)];
      Unmoved();
    }
  }

  /** Caching before the journaled write is overwritten by it. */
  lemma CacheOverwritten(s: State, e: Entry, o: Object, o': Object)
    requires o.address == o'.address
    ensures JournalObject(WithObject(s, o), e, o') == JournalObject(s, e, o')
  {
    assert s.objects[o.address := o][o.address := o'] == s.objects[o.address := o'];
  }

  lemma CachedThenSet(s: State, o: Object, k: Hash, w: StorageWord)
    ensures var o1 := o.(cached := o.cached[k := ReadWord(o, k)]);
            JournalObject(WithObject(s, o1), StorageChange(o.address, k, ReadWord(o, k)),
                          o1.(cached := o1.cached[k := w], dirty := o1.dirty[k := w]))
            == Spec.SetState(s, o, k, w)
  {
    var o1 := o.(cached := o.cached[k := ReadWord(o, k)]);
    var o2 := o1.(cached := o1.cached[k := w], dirty := o1.dirty[k := w]);
    assert o1.cached[k := w] == o.cached[k := w];
    CacheOverwritten(s, StorageChange(o.address, k, ReadWord(o, k)), o1, o2);
  }

  /** Reverting an entry neither reads nor changes the journal. */
  lemma UndoIgnoresJournal(db: Db, s: State, e: Entry, es: seq<Entry>)
    ensures Undoable(db, s.(entries := es), e) == Undoable(db, s, e)
    ensures Undoable(db, s, e) ==>
              Undo(db, s.(entries := es), e) == Undo(db, s, e).(entries := es) && Undo(db, s, e).dirties == s.dirties
  {
    if NeedsObject(e) || e.SuicideChange? {
      var s1 := s.(entries := es);
      assert Live(db, s1, e.account) == Live(db, s, e.account);
      assert Load(db, s1, e.account) == Load(db, s, e.account).(entries := es);
      assert Load(db, s, e.account).dirties == s.dirties;
      hide Live, Load, UndoObject;
    }
  }

  lemma {:induction false} SearchUnique(rs: seq<Revision>, id: nat, i: nat)
    requires i <= |rs| && (forall j :: 0 <= j < i ==> rs[j].id < id) && (i < |rs| ==> rs[i].id >= id)
    ensures i == Search(rs, id)
  {
    if i > 0 {
      SearchUnique(rs[1..], id, i - 1);
    }
  }

  lemma LoadNothing(db: Db, s: State, a: Address)
    requires Live(db, s, a).None?
    ensures Load(db, s, a) == s
  {
  }
}
