/** The account state of StateDB as a value: live objects over an unchanging database,
    the journal of changes and the stack of snapshots. */
module StateSpec {
  import opened Wrappers
  import opened Pieces
  import opened RlpFormat
  import opened RlpRaw

  type Address = nat
  type Hash = nat
  /** A 32-byte storage word, as the number its bytes spell. */
  type StorageWord = nat
  type Bytes = seq<Byte>

  /** keccak256 of the empty string. */
  const EMPTY_CODE: Hash := 0xc5d2460186f7233c927e7db2dcc703c0e500b653ca82273b7bfad8045d85a470
  const RIPEMD: Address := 3

  /** The consensus form of an account. */
  datatype Account = Account(nonce: nat, balance: int, root: Hash, codeHash: Hash)

  /** What the state trie, the storage tries and the code store hold, and the hash of codes. */
  datatype Db = Db(accounts: map<Address, Account>, tries: map<Hash, map<Hash, Bytes>>, codes: map<Hash, Bytes>,
                   hashOf: Bytes -> Hash)

  /** stateObject; `trie` is the storage trie opened at its root. */
  datatype Object = Object(
    address: Address,
    nonce: nat,
    balance: int,
    codeHash: Hash,
    trie: map<Hash, Bytes>,
    code: Option<Bytes>,
    cached: map<Hash, StorageWord>,
    dirty: map<Hash, StorageWord>,
    pdxCached: map<Hash, Bytes>,
    pdxDirty: map<Hash, Bytes>,
    dirtyCode: bool,
    suicided: bool,
    deleted: bool)

  function TrieAt(db: Db, root: Hash): (t: map<Hash, Bytes>)
  {
    if root != 0 && root in db.tries then db.tries[root] else map[]
  }

  /** newObject */
  function NewObject(db: Db, a: Address, acc: Account): (o: Object)
  {
    Object(a, acc.nonce, acc.balance, acc.codeHash, TrieAt(db, acc.root), None,
           map[], map[], map[], map[], false, false, false)
  }

  /** The account of createObject: all zero, with the hash of no code. */
  function EmptyAccount(): (acc: Account)
  {
    Account(0, 0, 0, EMPTY_CODE)
  }

  /** SetBytes keeps the last 32 bytes. */
  function WordOf(content: Bytes): (w: StorageWord)
  {
    FromBigEndian(if |content| > 32 then content[|content| - 32..] else content)
  }

  /** A storage word read from the trie: absent or undecodable entries read as zero. */
  function TrieWord(t: map<Hash, Bytes>, k: Hash): (w: StorageWord)
  {
    if k in t && |t[k]| > 0 then
      var r := Split(t[k]);
      if r.Ok? then WordOf(r.value.1) else 0
    else 0
  }

  function TrieBytes(t: map<Hash, Bytes>, k: Hash): (b: Bytes)
  {
    if k in t then t[k] else []
  }

  /** GetState, GetPDXState and Code of an object, without their caching. */
  function ReadWord(o: Object, k: Hash): (w: StorageWord)
  {
    if k in o.cached then o.cached[k] else TrieWord(o.trie, k)
  }

  function ReadPdx(o: Object, k: Hash): (b: Bytes)
  {
    if k in o.pdxCached then o.pdxCached[k] else TrieBytes(o.trie, k)
  }

  function ReadCode(db: Db, o: Object): (c: Option<Bytes>)
  {
    if o.code.Some? then o.code
    else if o.codeHash == EMPTY_CODE then None
    else Some(if o.codeHash in db.codes then db.codes[o.codeHash] else [])
  }

  predicate IsEmpty(o: Object)
  {
    o.nonce == 0 && o.balance == 0 && o.codeHash == EMPTY_CODE
  }

  /** The journal entries; a reset keeps the object it replaced. */
  datatype Entry =
    | CreateObject(account: Address)
    | ResetObject(prevObject: Object)
    | SuicideChange(account: Address, prevSuicided: bool, prevBalance: int)
    | BalanceChange(account: Address, prevBalance: int)
    | NonceChange(account: Address, prevNonce: nat)
    | StorageChange(account: Address, key: Hash, prevWord: StorageWord)
    | PdxStorageChange(account: Address, key: Hash, prevBytes: Bytes)
    | CodeChange(account: Address, prevCode: Option<Bytes>, prevHash: Hash)
    | RefundChange(prevRefund: nat)
    | AddPreimageChange(hash: Hash)
    | TouchChange(account: Address)

  /** dirtied */
  function Dirtied(e: Entry): (a: Option<Address>)
  {
    match e
    case ResetObject(_) => None
    case RefundChange(_) => None
    case AddPreimageChange(_) => None
    case _ => Some(e.account)
  }

  datatype Revision = Revision(id: nat, journalIndex: nat)

  datatype State = State(
    objects: map<Address, Object>,
    refund: nat,
    preimages: map<Hash, Bytes>,
    entries: seq<Entry>,
    dirties: map<Address, int>,
    revisions: seq<Revision>,
    nextRevisionId: nat)

  // ----- Reading

  /** getStateObject: a live object, else one loaded from the state trie. */
  function Live(db: Db, s: State, a: Address): (o: Option<Object>)
  {
    if a in s.objects then
      if s.objects[a].deleted then None else Some(s.objects[a])
    else if a in db.accounts then Some(NewObject(db, a, db.accounts[a]))
    else None
  }

  /** Its side effect: the loaded object joins the live ones. */
  function Load(db: Db, s: State, a: Address): (s': State)
  {
    if a !in s.objects && a in db.accounts then s.(objects := s.objects[a := NewObject(db, a, db.accounts[a])]) else s
  }

  function WithObject(s: State, o: Object): (s': State)
  {
    s.(objects := s.objects[o.address := o])
  }

  // ----- Journal

  function Bump(d: map<Address, int>, a: Address): (d': map<Address, int>)
  {
    d[a := (if a in d then d[a] else 0) + 1]
  }

  /** journal.append */
  function Append(s: State, e: Entry): (s': State)
  {
    s.(entries := s.entries + [e],
       dirties := if Dirtied(e).Some? then Bump(s.dirties, Dirtied(e).value) else s.dirties)
  }

  /** The dirty count goes down and disappears at zero. */
  function Undirty(d: map<Address, int>, e: Entry): (d': map<Address, int>)
  {
    if Dirtied(e).None? then d
    else
      var a := Dirtied(e).value;
      var n := (if a in d then d[a] else 0) - 1;
      if n == 0 then d - {a} else d[a := n]
  }

  /** An entry whose revert dereferences the live object of its account. */
  predicate NeedsObject(e: Entry)
  {
    e.BalanceChange? || e.NonceChange? || e.StorageChange? || e.PdxStorageChange? || e.CodeChange?
  }

  /** The revert of an entry does not panic. */
  predicate Undoable(db: Db, s: State, e: Entry)
  {
    NeedsObject(e) ==> Live(db, s, e.account).Some?
  }

  /** The change an entry's revert makes to the object of its account. */
  function UndoObject(o: Object, e: Entry): (o': Object)
  {
    match e
    case SuicideChange(_, prev, bal) => o.(suicided := prev, balance := bal)
    case BalanceChange(_, bal) => o.(balance := bal)
    case NonceChange(_, n) => o.(nonce := n)
    case StorageChange(_, k, w) => o.(cached := o.cached[k := w], dirty := o.dirty[k := w])
    case PdxStorageChange(_, k, b) => o.(pdxCached := o.pdxCached[k := b], pdxDirty := o.pdxDirty[k := b])
    case CodeChange(_, c, h) => o.(code := c, codeHash := h, dirtyCode := true)
    case _ => o
  }

  /** revert of one entry */
  function Undo(db: Db, s: State, e: Entry): (s': State)
    requires Undoable(db, s, e)
  {
    match e
    case CreateObject(a) => s.(objects := s.objects - {a})
    case ResetObject(o) => WithObject(s, o)
    case RefundChange(r) => s.(refund := r)
    case AddPreimageChange(h) => s.(preimages := s.preimages - {h})
    case TouchChange(_) => s
    case _ =>
      if Live(db, s, e.account).None? then Load(db, s, e.account)
      else WithObject(Load(db, s, e.account), UndoObject(Live(db, s, e.account).value, e))
  }

  /** One pass of the loop in journal.revert. */
  function RevertLast(db: Db, s: State): (s': State)
    requires s.entries != [] && Undoable(db, s, s.entries[|s.entries| - 1])
  {
    var e := s.entries[|s.entries| - 1];
    Undo(db, s, e).(entries := s.entries[..|s.entries| - 1], dirties := Undirty(s.dirties, e))
  }

  /** journal.revert: back to a journal of n entries; None is a nil dereference. */
  function RevertTo(db: Db, s: State, n: nat): (r: Option<State>)
    decreases |s.entries|
  {
    if |s.entries| <= n then Some(s)
    else if !Undoable(db, s, s.entries[|s.entries| - 1]) then None
    else RevertTo(db, RevertLast(db, s), n)
  }

  // ----- Operations

  /** createObject */
  function Create(db: Db, s: State, a: Address): (s': State)
  {
    var prev := Live(db, s, a);
    WithObject(Append(Load(db, s, a), if prev.None? then CreateObject(a) else ResetObject(prev.value)),
               NewObject(db, a, EmptyAccount()))
  }

  /** CreateAccount carries the balance of an existing account over. */
  function CreateAccount(db: Db, s: State, a: Address): (s': State)
  {
    var s1 := Create(db, s, a);
    var prev := Live(db, s, a);
    if prev.None? then s1
    else WithObject(s1, NewObject(db, a, EmptyAccount()).(balance := prev.value.balance))
  }

  /** GetOrNewStateObject */
  function GetOrNew(db: Db, s: State, a: Address): (s': State)
    ensures a in s'.objects && !s'.objects[a].deleted
    ensures Live(db, s, a).Some? ==> s' == Load(db, s, a)
  {
    if Live(db, s, a).None? then Create(db, s, a) else Load(db, s, a)
  }

  function JournalObject(s: State, e: Entry, o: Object): (s': State)
  {
    WithObject(Append(s, e), o)
  }

  function SetBalance(s: State, o: Object, v: int): (s': State)
  {
    JournalObject(s, BalanceChange(o.address, o.balance), o.(balance := v))
  }

  function SetNonce(s: State, o: Object, n: nat): (s': State)
  {
    JournalObject(s, NonceChange(o.address, o.nonce), o.(nonce := n))
  }

  /** SetCode reads, and so caches, the old code first. */
  function SetCode(db: Db, s: State, o: Object, h: Hash, c: Bytes): (s': State)
  {
    JournalObject(s, CodeChange(o.address, ReadCode(db, o), o.codeHash), o.(code := Some(c), codeHash := h, dirtyCode := true))
  }

  function SetState(s: State, o: Object, k: Hash, w: StorageWord): (s': State)
  {
    JournalObject(s, StorageChange(o.address, k, ReadWord(o, k)),
                  o.(cached := o.cached[k := w], dirty := o.dirty[k := w]))
  }

  function SetPdx(s: State, o: Object, k: Hash, b: Bytes): (s': State)
  {
    JournalObject(s, PdxStorageChange(o.address, k, ReadPdx(o, k)),
                  o.(pdxCached := o.pdxCached[k := b], pdxDirty := o.pdxDirty[k := b]))
  }

  /** touch, with the extra dirty mark of the RIPEMD precompile. */
  function Touch(s: State, a: Address): (s': State)
  {
    var s1 := Append(s, TouchChange(a));
    if a == RIPEMD then s1.(dirties := Bump(s1.dirties, a)) else s1
  }

  function AddBalance(s: State, o: Object, v: int): (s': State)
  {
    if v == 0 then if IsEmpty(o) then Touch(s, o.address) else s
    else SetBalance(s, o, o.balance + v)
  }

  function SubBalance(s: State, o: Object, v: int): (s': State)
  {
    if v == 0 then s else SetBalance(s, o, o.balance - v)
  }

  function Suicide(db: Db, s: State, a: Address): (s': State)
  {
    var o := Live(db, s, a);
    if o.None? then Load(db, s, a)
    else JournalObject(Load(db, s, a), SuicideChange(a, o.value.suicided, o.value.balance),
                       o.value.(suicided := true, balance := 0))
  }

  const UINT64: nat := 0x1_0000_0000_0000_0000

  function AddRefund(s: State, gas: nat): (s': State)
  {
    Append(s, RefundChange(s.refund)).(refund := (s.refund + gas) % UINT64)
  }

  function AddPreimage(s: State, h: Hash, b: Bytes): (s': State)
  {
    if h in s.preimages then s
    else Append(s, AddPreimageChange(h)).(preimages := s.preimages[h := b])
  }

  function Snapshot(s: State): (s': State)
  {
    s.(revisions := s.revisions + [Revision(s.nextRevisionId, |s.entries|)], nextRevisionId := s.nextRevisionId + 1)
  }

  /** sort.Search: the first revision whose id is not below the wanted one. */
  function Search(rs: seq<Revision>, id: nat): (i: nat)
    ensures i <= |rs|
    ensures forall j :: 0 <= j < i ==> rs[j].id < id
    ensures i < |rs| ==> rs[i].id >= id
  {
    if rs == [] || rs[0].id >= id then 0 else 1 + Search(rs[1..], id)
  }

  /** RevertToSnapshot; None is one of its panics. */
  function RevertToSnapshot(db: Db, s: State, id: nat): (r: Option<State>)
  {
    var i := Search(s.revisions, id);
    if i == |s.revisions| || s.revisions[i].id != id then None
    else
      var r := RevertTo(db, s, s.revisions[i].journalIndex);
      if r.None? then None else Some(r.value.(revisions := s.revisions[..i]))
  }

  /** Getters load objects and cache what they read. */
  function CacheWord(db: Db, s: State, a: Address, k: Hash): (s': State)
  {
    var o := Live(db, s, a);
    if o.None? then s
    else WithObject(Load(db, s, a), o.value.(cached := o.value.cached[k := ReadWord(o.value, k)]))
  }

  function CacheCode(db: Db, s: State, a: Address): (s': State)
  {
    var o := Live(db, s, a);
    if o.None? then s else WithObject(Load(db, s, a), o.value.(code := ReadCode(db, o.value)))
  }

  datatype Op =
    | OpRead(a: Address)
    | OpReadState(a: Address, k: Hash)
    | OpReadCode(a: Address)
    | OpCreateAccount(a: Address)
    | OpAddBalance(a: Address, v: int)
    | OpSubBalance(a: Address, v: int)
    | OpSetBalance(a: Address, v: int)
    | OpSetNonce(a: Address, n: nat)
    | OpSetCode(a: Address, c: Bytes)
    | OpSetState(a: Address, k: Hash, w: StorageWord)
    | OpSetPdx(a: Address, k: Hash, b: Bytes)
    | OpSuicide(a: Address)
    | OpAddRefund(gas: nat)
    | OpAddPreimage(h: Hash, b: Bytes)
    | OpSnapshot
    | OpRevert(id: nat)

  predicate IsSetter(op: Op)
  {
    op.OpAddBalance? || op.OpSubBalance? || op.OpSetBalance? || op.OpSetNonce? || op.OpSetCode?
    || op.OpSetState? || op.OpSetPdx?
  }

  /** The setters, on the object that GetOrNewStateObject returned. */
  function Setter(db: Db, s: State, o: Object, op: Op): (s': State)
    requires IsSetter(op)
  {
    match op
    case OpAddBalance(_, v) => AddBalance(s, o, v)
    case OpSubBalance(_, v) => SubBalance(s, o, v)
    case OpSetBalance(_, v) => SetBalance(s, o, v)
    case OpSetNonce(_, n) => SetNonce(s, o, n)
    case OpSetCode(_, c) => SetCode(db, s, o, db.hashOf(c), c)
    case OpSetState(_, k, w) => SetState(s, o, k, w)
    case OpSetPdx(_, k, b) => SetPdx(s, o, k, b)
  }

  /** One call of the StateDB interface; None is a panic. */
  function Step(db: Db, s: State, op: Op): (r: Option<State>)
  {
    match op
    case OpRead(a) => Some(Load(db, s, a))
    case OpReadState(a, k) => Some(CacheWord(db, s, a, k))
    case OpReadCode(a) => Some(CacheCode(db, s, a))
    case OpCreateAccount(a) => Some(CreateAccount(db, s, a))
    case OpSuicide(a) => Some(Suicide(db, s, a))
    case OpAddRefund(gas) => Some(AddRefund(s, gas))
    case OpAddPreimage(h, b) => Some(AddPreimage(s, h, b))
    case OpSnapshot => Some(Snapshot(s))
    case OpRevert(id) => RevertToSnapshot(db, s, id)
    case _ =>
      var s1 := GetOrNew(db, s, op.a);
      Some(Setter(db, s1, s1.objects[op.a], op))
  }
}
