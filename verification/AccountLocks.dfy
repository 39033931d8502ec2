/** The account-lock manager shared by the goroutines of MStateDB, as a state machine.
    Every section under mLock, every acquisition of an account mutex and every
    release of one is an atomic action; transactions interleave in any order. */
module AccountLocks {
  import opened Wrappers

  type Address = nat
  /** Transaction hashes; 0 is the zero hash that an absent map entry reads as. */
  type Hash = nat
  type MutexId = nat

  /** Where the goroutine of a transaction is. */
  datatype Phase =
    | Running
    | Waiting(addr: Address, lock: MutexId)  // in aLock.Lock(), outside mLock
    | Acquired(addr: Address)                // holds the mutex, has not re-entered mLock
    | Panicked                               // ErrMStateDBDeadLock was raised
    | Unlocking(locks: seq<MutexId>)         // the release loop of UnLockAccounts
    | Done

  datatype State = State(
    lockedAccount: map<Address, Hash>,
    accountLock: map<Address, MutexId>,
    txLockQueue: map<Hash, seq<Address>>,
    mutexes: seq<Option<Hash>>,   // the holder of each allocated mutex
    phase: map<Hash, Phase>,
    executedTxs: seq<Hash>,
    fatal: bool                   // an unlocked mutex was unlocked
  )

  datatype Action =
    | Request(tx: Hash, addr: Address)  // requestAndLock up to its first mLock.Unlock
    | Acquire(tx: Hash)                 // aLock.Lock() returns
    | Record(tx: Hash)                  // the second mLock section
    | StartUnlock(tx: Hash, addTx: bool)
    | UnlockOne(tx: Hash)

  function Init(txs: set<Hash>): (s: State)
  {
    State(map[], map[], map[], [], map t | t in txs :: Running, [], false)
  }

  /** Reads of Go maps: the zero value stands for an absent key. */
  function Holder(s: State, a: Address): (h: Hash)
  {
    if a in s.lockedAccount then s.lockedAccount[a] else 0
  }

  function Queue(s: State, t: Hash): (q: seq<Address>)
  {
    if t in s.txLockQueue then s.txLockQueue[t] else []
  }

  /** What the loop of _checkDeadLock computes: its body runs at most once. */
  predicate Conflict(s: State, lockingAddr: Address, lockQueue: seq<Address>, addr: Address)
  {
    Holder(s, lockingAddr) != Holder(s, addr) && lockingAddr in lockQueue
  }

  /** _checkDeadLock */
  method CheckDeadLock(s: State, lockingAddr0: Address, lockQueue: seq<Address>, addr0: Address) returns (b: bool)
    ensures b == Conflict(s, lockingAddr0, lockQueue, addr0)
  {
    var lockingAddr, addr := lockingAddr0, addr0;
    var tx := Holder(s, lockingAddr);
    while tx != Holder(s, addr)
      invariant tx == Holder(s, addr) || (lockingAddr == lockingAddr0 && addr == addr0 && tx == Holder(s, lockingAddr))
      invariant tx == Holder(s, addr) ==> !Conflict(s, lockingAddr0, lockQueue, addr0)
      decreases tx != Holder(s, addr)
    {
      for i := 0 to |lockQueue|
        invariant lockingAddr !in lockQueue[..i]
      {
        if lockQueue[i] == lockingAddr {
          return true;
        }
      }
      addr := lockingAddr;
      tx := Holder(s, lockingAddr);
      var txQueue := Queue(s, tx);
      if |txQueue| > 1 {
        lockingAddr := txQueue[|txQueue| - 1];
      } else {
        return false;
      }
    }
    return false;
  }

  /** The guard of the panic in requestAndLock. */
  predicate DeadlockSeen(s: State, t: Hash, a: Address)
  {
    var q1 := Queue(s, Holder(s, a));
    var q2 := Queue(s, t);
    |q1| > 1 && |q2| > 0 && Conflict(s, q1[|q1| - 1], q2, a)
  }

  predicate Enabled(s: State, act: Action)
  {
    && !s.fatal
    && act.tx in s.phase
    && var p := s.phase[act.tx];
       match act
       case Request(_, _) => p.Running?
       case Acquire(_) => p.Waiting? && p.lock < |s.mutexes| && s.mutexes[p.lock] == None
       case Record(_) => p.Acquired?
       case StartUnlock(_, _) => p.Running? || p.Panicked?
       case UnlockOne(_) => p.Unlocking?
  }

  /** The mutexes of the accounts in a queue, in queue order. */
  function LocksOf(s: State, q: seq<Address>): (ls: seq<MutexId>)
    ensures |ls| == |q|
    ensures forall i :: 0 <= i < |q| && q[i] in s.accountLock ==> ls[i] == s.accountLock[q[i]]
  {
    seq(|q|, i requires 0 <= i < |q| => if q[i] in s.accountLock then s.accountLock[q[i]] else 0)
  }

  function Apply(s: State, act: Action): (s': State)
    requires Enabled(s, act)
  {
    var t := act.tx;
    match act
    case Request(_, a) =>
      if Holder(s, a) == t then s
      else if Holder(s, a) == 0 then
        s.(lockedAccount := s.lockedAccount[a := t],
           mutexes := s.mutexes + [Some(t)],
           accountLock := s.accountLock[a := |s.mutexes|],
           txLockQueue := s.txLockQueue[t := Queue(s, t) + [a]])
      else if DeadlockSeen(s, t, a) then
        s.(phase := s.phase[t := Panicked])
      else
        s.(txLockQueue := s.txLockQueue[t := Queue(s, t) + [a]],
           phase := s.phase[t := Waiting(a, if a in s.accountLock then s.accountLock[a] else 0)])
    case Acquire(_) =>
      var p := s.phase[t];
      s.(mutexes := s.mutexes[p.lock := Some(t)], phase := s.phase[t := Acquired(p.addr)])
    case Record(_) =>
      s.(lockedAccount := s.lockedAccount[s.phase[t].addr := t], phase := s.phase[t := Running])
    case StartUnlock(_, addTx) =>
      s.(executedTxs := if addTx then s.executedTxs + [t] else s.executedTxs,
         txLockQueue := s.txLockQueue - {t},
         phase := s.phase[t := Unlocking(LocksOf(s, Queue(s, t)))])
    case UnlockOne(_) =>
      var ls := s.phase[t].locks;
      if ls == [] then s.(phase := s.phase[t := Done])
      else if ls[0] < |s.mutexes| && s.mutexes[ls[0]].Some? then
        s.(mutexes := s.mutexes[ls[0] := None], phase := s.phase[t := Unlocking(ls[1..])])
      else s.(fatal := true)
  }

  /** Runs: any list of actions each enabled when its turn comes. */
  predicate ValidRun(s: State, acts: seq<Action>)
    decreases |acts|
  {
    acts == [] || (Enabled(s, acts[0]) && ValidRun(Apply(s, acts[0]), acts[1..]))
  }

  function Run(s: State, acts: seq<Action>): (s': State)
    requires ValidRun(s, acts)
    decreases |acts|
  {
    if acts == [] then s else Run(Apply(s, acts[0]), acts[1..])
  }

  // ----- What every reachable state satisfies

  /** t owns the mutex of a. */
  predicate Holds(s: State, t: Hash, a: Address)
  {
    a in s.accountLock && s.accountLock[a] < |s.mutexes| && s.mutexes[s.accountLock[a]] == Some(t)
  }

  predicate NoDuplicates<T(==)>(q: seq<T>)
  {
    forall i, j :: 0 <= i < j < |q| ==> q[i] != q[j]
  }

  /** The queue q lists, once each, the accounts that are recorded as t's. */
  ghost predicate Lists(s: State, t: Hash, q: seq<Address>)
  {
    NoDuplicates(q) && forall a: Address :: a in q <==> Holder(s, a) == t
  }

  ghost predicate HoldsExactly(s: State, t: Hash, q: seq<Address>)
  {
    forall a: Address :: Holds(s, t, a) <==> a in q
  }

  /** The state of one transaction, phase by phase. */
  ghost predicate TxInv(s: State, t: Hash)
    requires t in s.phase
  {
    var q := Queue(s, t);
    match s.phase[t]
    case Running => Lists(s, t, q) && HoldsExactly(s, t, q)
    case Panicked => Lists(s, t, q) && HoldsExactly(s, t, q)
    case Waiting(a, l) =>
      && |q| > 0 && q[|q| - 1] == a && a in s.accountLock && s.accountLock[a] == l
      && Lists(s, t, q[..|q| - 1]) && HoldsExactly(s, t, q[..|q| - 1]) && Holder(s, a) != t
    case Acquired(a) =>
      && |q| > 0 && q[|q| - 1] == a
      && Lists(s, t, q[..|q| - 1]) && HoldsExactly(s, t, q) && Holder(s, a) != t
    case Unlocking(ls) =>
      && t !in s.txLockQueue && NoDuplicates(ls)
      && (forall l :: l in ls ==> l < |s.mutexes| && s.mutexes[l] == Some(t))
      && (forall a: Address :: Holds(s, t, a) ==> s.accountLock[a] in ls)
    case Done => t !in s.txLockQueue && HoldsExactly(s, t, [])
  }

  /** Each account gets one mutex, for good, when it is first locked. */
  ghost predicate Consistent(s: State)
  {
    && s.lockedAccount.Keys == s.accountLock.Keys
    && (forall a :: a in s.lockedAccount ==> s.lockedAccount[a] != 0 && s.lockedAccount[a] in s.phase)
    && (forall a :: a in s.accountLock ==> s.accountLock[a] < |s.mutexes|)
    && (forall a, b :: a in s.accountLock && b in s.accountLock && s.accountLock[a] == s.accountLock[b] ==> a == b)
    && (forall l :: 0 <= l < |s.mutexes| && s.mutexes[l].Some? ==> s.mutexes[l].value in s.phase)
    && 0 !in s.phase
    && s.txLockQueue.Keys <= s.phase.Keys
    && !s.fatal
  }

  ghost predicate Inv(s: State)
  {
    Consistent(s) && forall t :: t in s.phase ==> TxInv(s, t)
  }

  /** Nothing that TxInv says about u changed. */
  ghost predicate Untouched(s: State, s': State, u: Hash)
  {
    && u in s.phase && u in s'.phase && s.phase[u] == s'.phase[u]
    && (u in s.txLockQueue <==> u in s'.txLockQueue) && Queue(s, u) == Queue(s', u)
    && (forall a :: a in s.accountLock ==> a in s'.accountLock && s'.accountLock[a] == s.accountLock[a])
    && |s.mutexes| <= |s'.mutexes|
    && (forall l :: 0 <= l < |s.mutexes| ==> (s.mutexes[l] == Some(u) <==> s'.mutexes[l] == Some(u)))
    && (forall a: Address :: Holds(s, u, a) <==> Holds(s', u, a))
    && (forall a: Address :: Holder(s, a) == u <==> Holder(s', a) == u)
  }

  lemma UntouchedKeeps(s: State, s': State, u: Hash)
    requires Untouched(s, s', u) && TxInv(s, u)
    ensures TxInv(s', u)
  {
  }

  lemma InitInv(txs: set<Hash>)
    requires 0 !in txs
    ensures Inv(Init(txs))
  {
  }

  /** An account recorded for a transaction that has not unlocked is held by it. */
  lemma RecordedIsHeld(s: State, t: Hash, a: Address)
    requires Inv(s) && t in s.phase && !s.phase[t].Unlocking? && !s.phase[t].Done? && Holder(s, a) == t
    ensures Holds(s, t, a) && a in Queue(s, t)
  {
    var q := Queue(s, t);
    if s.phase[t].Waiting? || s.phase[t].Acquired? {
      assert a in q[..|q| - 1];
    }
  }

  /** Everything but the account of a fresh lock is as it was for the others. */
  lemma RequestOthers(s: State, t: Hash, a: Address, u: Hash)
    requires Consistent(s) && Enabled(s, Request(t, a)) && u in s.phase && u != t
    ensures Untouched(s, Apply(s, Request(t, a)), u)
  {
  }

  lemma RequestSelf(s: State, t: Hash, a: Address)
    requires Consistent(s) && Enabled(s, Request(t, a)) && TxInv(s, t)
    ensures TxInv(Apply(s, Request(t, a)), t)
  {
    var s', q := Apply(s, Request(t, a)), Queue(s, t);
    if Holder(s, a) == 0 {
      assert a !in q;
      FreshLock(s, t, a);
    } else if Holder(s, a) != t && !DeadlockSeen(s, t, a) {
      assert Queue(s', t)[..|q|] == q;
      assert forall b: Address :: Holder(s', b) == Holder(s, b);
      assert forall b: Address :: Holds(s', t, b) <==> Holds(s, t, b);
    }
  }

  lemma FreshLock(s: State, t: Hash, a: Address)
    requires Consistent(s) && Enabled(s, Request(t, a)) && Holder(s, a) == 0
    ensures var s' := Apply(s, Request(t, a));
            && (forall b: Address :: Holder(s', b) == if b == a then t else Holder(s, b))
            && (forall b: Address :: Holds(s', t, b) <==> b == a || Holds(s, t, b))
  {
    assert a !in s.accountLock;
  }

  lemma RequestConsistent(s: State, t: Hash, a: Address)
    requires Consistent(s) && Enabled(s, Request(t, a))
    ensures Consistent(Apply(s, Request(t, a)))
  {
    hide DeadlockSeen, Queue;
    if Holder(s, a) == 0 {
      var s' := Apply(s, Request(t, a));
      assert a !in s.accountLock;
      assert s'.mutexes[|s.mutexes|] == Some(t);
      assert forall l :: 0 <= l < |s.mutexes| ==> s'.mutexes[l] == s.mutexes[l];
    }
  }

  lemma AcquireOthers(s: State, t: Hash, u: Hash)
    requires Consistent(s) && Enabled(s, Acquire(t)) && u in s.phase && u != t
    ensures Untouched(s, Apply(s, Acquire(t)), u)
  {
  }

  lemma AcquireSelf(s: State, t: Hash)
    requires Consistent(s) && Enabled(s, Acquire(t)) && TxInv(s, t)
    ensures TxInv(Apply(s, Acquire(t)), t)
  {
    var s' := Apply(s, Acquire(t));
    var a, q := s.phase[t].addr, Queue(s, t);
    assert q == q[..|q| - 1] + [a];
    assert forall b: Address :: Holder(s', b) == Holder(s, b);
    assert forall b: Address :: Holds(s', t, b) <==> b == a || Holds(s, t, b);
    assert forall b: Address :: b in q <==> b == a || b in q[..|q| - 1];
  }

  lemma AcquireConsistent(s: State, t: Hash)
    requires Consistent(s) && Enabled(s, Acquire(t))
    ensures Consistent(Apply(s, Acquire(t)))
  {
  }

  lemma RecordOthers(s: State, t: Hash, u: Hash)
    requires Inv(s) && Enabled(s, Record(t)) && u in s.phase && u != t
    ensures TxInv(Apply(s, Record(t)), u)
  {
    hide Consistent;
    var s', a := Apply(s, Record(t)), s.phase[t].addr;
    assert TxInv(s, t) && TxInv(s, u);
    assert forall b: Address :: Holds(s', u, b) <==> Holds(s, u, b);
    if !s.phase[u].Unlocking? && !s.phase[u].Done? {
      assert Holds(s, t, a);
      if Holder(s, a) == u {
        RecordedIsHeld(s, u, a);
      }
      UntouchedKeeps(s, s', u);
    }
  }

  lemma RecordSelf(s: State, t: Hash)
    requires Consistent(s) && Enabled(s, Record(t)) && TxInv(s, t)
    ensures TxInv(Apply(s, Record(t)), t)
  {
    var s' := Apply(s, Record(t));
    var a, q := s.phase[t].addr, Queue(s, t);
    assert q == q[..|q| - 1] + [a];
    assert forall b: Address :: Holder(s', b) == if b == a then t else Holder(s, b);
    assert forall b: Address :: Holds(s', t, b) <==> Holds(s, t, b);
    assert forall b: Address :: b in q <==> b == a || b in q[..|q| - 1];
  }

  lemma RecordConsistent(s: State, t: Hash)
    requires Consistent(s) && Enabled(s, Record(t)) && TxInv(s, t)
    ensures Consistent(Apply(s, Record(t)))
  {
    var a, q := s.phase[t].addr, Queue(s, t);
    assert a in q;
    assert Holds(s, t, a);
  }

  lemma StartUnlockOthers(s: State, t: Hash, addTx: bool, u: Hash)
    requires Consistent(s) && Enabled(s, StartUnlock(t, addTx)) && u in s.phase && u != t
    ensures Untouched(s, Apply(s, StartUnlock(t, addTx)), u)
  {
  }

  lemma StartUnlockSelf(s: State, t: Hash, addTx: bool)
    requires Consistent(s) && Enabled(s, StartUnlock(t, addTx)) && TxInv(s, t)
    ensures TxInv(Apply(s, StartUnlock(t, addTx)), t)
  {
    var s', q := Apply(s, StartUnlock(t, addTx)), Queue(s, t);
    var ls := LocksOf(s, q);
    forall i | 0 <= i < |q|
      ensures Holds(s, t, q[i])
    {
      assert q[i] in q;
    }
    forall a: Address | Holds(s', t, a)
      ensures s'.accountLock[a] in ls
    {
      assert Holds(s, t, a);
      var i :| 0 <= i < |q| && q[i] == a;
      assert ls[i] == s.accountLock[a];
    }
  }

  lemma StartUnlockConsistent(s: State, t: Hash, addTx: bool)
    requires Consistent(s) && Enabled(s, StartUnlock(t, addTx))
    ensures Consistent(Apply(s, StartUnlock(t, addTx)))
  {
  }

  lemma UnlockOneOthers(s: State, t: Hash, u: Hash)
    requires Consistent(s) && Enabled(s, UnlockOne(t)) && TxInv(s, t) && u in s.phase && u != t
    ensures Untouched(s, Apply(s, UnlockOne(t)), u)
  {
    var ls := s.phase[t].locks;
    assert ls != [] ==> ls[0] in ls;
  }

  lemma UnlockOneSelf(s: State, t: Hash)
    requires Enabled(s, UnlockOne(t)) && TxInv(s, t)
    ensures TxInv(Apply(s, UnlockOne(t)), t)
  {
    hide Lists, Holder, Queue;
    var s', ls := Apply(s, UnlockOne(t)), s.phase[t].locks;
    if ls == [] {
      assert forall a: Address :: Holds(s', t, a) <==> Holds(s, t, a);
    } else {
      var l := ls[0];
      assert l in ls;
      assert s' == s.(mutexes := s.mutexes[l := None], phase := s.phase[t := Unlocking(ls[1..])]);
      RestIsHeld(s, s', t, l, ls);
    }
  }

  /** Releasing the first of the listed mutexes leaves exactly the others to release. */
  lemma RestIsHeld(s: State, s': State, t: Hash, l: MutexId, ls: seq<MutexId>)
    requires ls != [] && ls[0] == l < |s.mutexes| && NoDuplicates(ls)
    requires s'.accountLock == s.accountLock && s'.mutexes == s.mutexes[l := None]
    requires forall k :: k in ls ==> k < |s.mutexes| && s.mutexes[k] == Some(t)
    requires forall a: Address :: Holds(s, t, a) ==> s.accountLock[a] in ls
    ensures NoDuplicates(ls[1..])
    ensures forall k :: k in ls[1..] ==> k < |s'.mutexes| && s'.mutexes[k] == Some(t)
    ensures forall a: Address :: Holds(s', t, a) ==> s'.accountLock[a] in ls[1..]
  {
    assert forall k :: k in ls[1..] ==> k in ls && k != l;
    forall a: Address | Holds(s', t, a)
      ensures s'.accountLock[a] in ls[1..]
    {
      assert Holds(s, t, a) && s.accountLock[a] != l;
      assert ls == [l] + ls[1..];
    }
  }

  /** A mutex that UnLockAccounts releases is locked, by the one who releases it. */
  lemma UnlockOneConsistent(s: State, t: Hash)
    requires Consistent(s) && Enabled(s, UnlockOne(t)) && TxInv(s, t)
    ensures Consistent(Apply(s, UnlockOne(t)))
  {
    var ls := s.phase[t].locks;
    assert ls != [] ==> ls[0] in ls;
  }

  /** The invariant is inductive. */
  lemma StepKeepsInv(s: State, act: Action)
    requires Inv(s) && Enabled(s, act)
    ensures Inv(Apply(s, act))
  {
    hide TxInv, Consistent;
    var s', t := Apply(s, act), act.tx;
    assert s'.phase.Keys == s.phase.Keys by { hide DeadlockSeen, Holder, Queue, LocksOf; }
    hide Apply;
    assert TxInv(s, t);
    SelfKeeps(s, act);
    forall u | u in s.phase && u != t
      ensures TxInv(s', u)
    {
      OthersKeep(s, act, u);
    }
  }

  lemma SelfKeeps(s: State, act: Action)
    requires Consistent(s) && Enabled(s, act) && TxInv(s, act.tx)
    ensures Consistent(Apply(s, act)) && act.tx in Apply(s, act).phase && TxInv(Apply(s, act), act.tx)
  {
    hide TxInv, Consistent;
    match act
    case Request(t, a) => RequestSelf(s, t, a); RequestConsistent(s, t, a);
    case Acquire(t) => AcquireSelf(s, t); AcquireConsistent(s, t);
    case Record(t) => RecordSelf(s, t); RecordConsistent(s, t);
    case StartUnlock(t, addTx) => StartUnlockSelf(s, t, addTx); StartUnlockConsistent(s, t, addTx);
    case UnlockOne(t) => UnlockOneSelf(s, t); UnlockOneConsistent(s, t);
  }

  lemma OthersKeep(s: State, act: Action, u: Hash)
    requires Inv(s) && Enabled(s, act) && u in s.phase && u != act.tx
    ensures u in Apply(s, act).phase && TxInv(Apply(s, act), u)
  {
    hide TxInv, Untouched, Consistent;
    var s' := Apply(s, act);
    assert TxInv(s, u) && TxInv(s, act.tx);
    match act
    case Request(t, a) => RequestOthers(s, t, a, u); UntouchedKeeps(s, s', u);
    case Acquire(t) => AcquireOthers(s, t, u); UntouchedKeeps(s, s', u);
    case Record(t) => RecordOthers(s, t, u);
    case StartUnlock(t, addTx) => StartUnlockOthers(s, t, addTx, u); UntouchedKeeps(s, s', u);
    case UnlockOne(t) => UnlockOneOthers(s, t, u); UntouchedKeeps(s, s', u);
  }

  // ----- Safety over all runs

  lemma {:induction false} RunKeepsInv(s: State, acts: seq<Action>)
    requires Inv(s) && ValidRun(s, acts)
    ensures Inv(Run(s, acts))
    decreases |acts|
  {
    hide Inv, Apply, Enabled;
    if acts != [] {
      StepKeepsInv(s, acts[0]);
      RunKeepsInv(Apply(s, acts[0]), acts[1..]);
    }
  }

  /** requestAndLock returns only to a holder of the account's mutex, from its first
      section (the transaction stays Running) and from its second (Record). */
  lemma ReturnsHolding(s: State, act: Action)
    requires Inv(s) && Enabled(s, act) && (act.Request? || act.Record?)
    ensures var s' := Apply(s, act);
            var a := if act.Request? then act.addr else s.phase[act.tx].addr;
            s'.phase[act.tx].Running? ==> Holds(s', act.tx, a)
  {
    var t := act.tx;
    assert TxInv(s, t);
    if act.Record? {
      var q := Queue(s, t);
      assert q[|q| - 1] in q;
    }
  }

  /** A transaction between requests holds exactly the accounts of its queue, which
      are also the accounts recorded as its own, each once. */
  lemma QueueIsHeld(s: State, t: Hash)
    requires Inv(s) && t in s.phase && s.phase[t].Running?
    ensures NoDuplicates(Queue(s, t))
    ensures forall a: Address :: a in Queue(s, t) <==> Holds(s, t, a)
    ensures forall a: Address :: a in Queue(s, t) <==> Holder(s, a) == t
  {
    assert TxInv(s, t);
  }

  /** The release loop has every held mutex still to release, once, and ends with none. */
  lemma ReleaseIsExact(s: State, t: Hash)
    requires Inv(s) && t in s.phase && (s.phase[t].Unlocking? || s.phase[t].Done?)
    ensures s.phase[t].Done? ==> forall a: Address :: !Holds(s, t, a)
    ensures s.phase[t].Unlocking? ==>
              && NoDuplicates(s.phase[t].locks)
              && (forall l :: l in s.phase[t].locks ==> l < |s.mutexes| && s.mutexes[l] == Some(t))
              && (forall a: Address :: Holds(s, t, a) ==> s.accountLock[a] in s.phase[t].locks)
    ensures !s.fatal
  {
    assert TxInv(s, t);
  }

  // ----- The executed transactions

  /** The transactions that ended with UnLockAccounts(true), in the order of the run. */
  function Completed(acts: seq<Action>): (ts: seq<Hash>)
  {
    if acts == [] then []
    else if acts[0].StartUnlock? && acts[0].addTx then [acts[0].tx] + Completed(acts[1..])
    else Completed(acts[1..])
  }

  lemma StepExecutes(s: State, act: Action)
    requires Enabled(s, act)
    ensures Apply(s, act).executedTxs ==
            if act.StartUnlock? && act.addTx then s.executedTxs + [act.tx] else s.executedTxs
  {
    hide DeadlockSeen, Holder, Queue, LocksOf;
  }

  lemma {:induction false} CompletedGrows(s: State, acts: seq<Action>)
    requires ValidRun(s, acts)
    ensures Run(s, acts).executedTxs == s.executedTxs + Completed(acts)
    decreases |acts|
  {
    hide Enabled, Apply;
    if acts == [] {
      assert s.executedTxs + [] == s.executedTxs;
    } else {
      var act, rest := acts[0], Completed(acts[1..]);
      StepExecutes(s, act);
      CompletedGrows(Apply(s, act), acts[1..]);
      assert s.executedTxs + [act.tx] + rest == s.executedTxs + ([act.tx] + rest);
    }
  }

  /** A transaction has started to unlock and never runs again. */
  predicate Ended(s: State, t: Hash)
  {
    t in s.phase && (s.phase[t].Unlocking? || s.phase[t].Done?)
  }

  ghost predicate ExecutedOnce(s: State)
  {
    NoDuplicates(s.executedTxs) && forall t :: t in s.executedTxs ==> Ended(s, t)
  }

  lemma StepKeepsExecutedOnce(s: State, act: Action)
    requires ExecutedOnce(s) && Enabled(s, act)
    ensures ExecutedOnce(Apply(s, act))
  {
    hide DeadlockSeen, Holder, Queue, LocksOf;
    assert forall t :: Ended(s, t) ==> Ended(Apply(s, act), t);
    assert act.StartUnlock? ==> act.tx !in s.executedTxs;
  }

  lemma {:induction false} RunKeepsExecutedOnce(s: State, acts: seq<Action>)
    requires ExecutedOnce(s) && ValidRun(s, acts)
    ensures ExecutedOnce(Run(s, acts))
    decreases |acts|
  {
    hide ExecutedOnce, Apply, Enabled;
    if acts != [] {
      StepKeepsExecutedOnce(s, acts[0]);
      RunKeepsExecutedOnce(Apply(s, acts[0]), acts[1..]);
    }
  }

  /** GetTxs, over all runs: the transactions that ended with UnLockAccounts(true), in that
      order, each once, and none that can still run. */
  lemma ExecutedAreCompleted(txs: set<Hash>, acts: seq<Action>)
    requires ValidRun(Init(txs), acts)
    ensures var s := Run(Init(txs), acts);
            && s.executedTxs == Completed(acts)
            && (forall i, j :: 0 <= i < j < |s.executedTxs| ==> s.executedTxs[i] != s.executedTxs[j])
            && forall t :: t in s.executedTxs ==> t in s.phase && (s.phase[t].Unlocking? || s.phase[t].Done?)
  {
    CompletedGrows(Init(txs), acts);
    RunKeepsExecutedOnce(Init(txs), acts);
    hide Run, Completed;
  }

  // ----- The mutexes stay

  lemma StepKeepsLocks(s: State, act: Action, a: Address)
    requires Consistent(s) && Enabled(s, act) && a in s.accountLock
    ensures var s' := Apply(s, act);
            a in s'.accountLock && s'.accountLock[a] == s.accountLock[a] && Holder(s', a) != 0
  {
    hide DeadlockSeen, Queue, LocksOf;
  }

  /** An account keeps its first mutex for good, and once asked for is never free again, even
      after every transaction has ended: the next one waits for the mutex. */
  lemma {:induction false} RunKeepsLocks(s: State, acts: seq<Action>, a: Address)
    requires Inv(s) && ValidRun(s, acts) && a in s.accountLock
    ensures var s' := Run(s, acts);
            a in s'.accountLock && s'.accountLock[a] == s.accountLock[a] && Holder(s', a) != 0
    decreases |acts|
  {
    hide Apply, Enabled, TxInv;
    if acts != [] {
      StepKeepsLocks(s, acts[0], a);
      StepKeepsInv(s, acts[0]);
      RunKeepsLocks(Apply(s, acts[0]), acts[1..], a);
    }
  }

  /** t is blocked on a mutex that u holds. */
  predicate Waits(s: State, t: Hash, u: Hash)
  {
    && t in s.phase && s.phase[t].Waiting?
    && s.phase[t].lock < |s.mutexes| && s.mutexes[s.phase[t].lock] == Some(u)
  }

  ghost predicate NoMutualWait(s: State)
  {
    forall t, u :: Waits(s, t, u) ==> !Waits(s, u, t)
  }

  lemma WaiterHoldsNothingItWaitsFor(s: State, t: Hash)
    requires Inv(s)
    ensures !Waits(s, t, t)
  {
    if Waits(s, t, t) {
      assert TxInv(s, t);
      assert Holds(s, t, s.phase[t].addr);
    }
  }

  /** A request for an account of someone blocked on the requester is seen. */
  lemma MutualWaitSeen(s: State, t: Hash, a: Address, u: Hash)
    requires Inv(s) && t in s.phase && s.phase[t].Running? && Holds(s, u, a) && Waits(s, u, t)
    ensures Holder(s, a) == u && DeadlockSeen(s, t, a)
  {
    hide Inv, Holds, Queue, Holder;
    WaiterQueue(s, u, t, a);
    RunningQueue(s, t, s.phase[u].addr);
  }

  /** The queue of a blocked transaction ends with what it waits for. */
  lemma WaiterQueue(s: State, u: Hash, t: Hash, a: Address)
    requires Inv(s) && Waits(s, u, t) && Holds(s, u, a)
    ensures var q, b := Queue(s, u), s.phase[u].addr;
      |q| > 1 && q[|q| - 1] == b && Holds(s, t, b) && Holder(s, b) != u && Holder(s, a) == u
  {
    WaiterLists(s, u, t, a);
    hide Inv, Waits, Holds, Holder;
    var q := Queue(s, u);
    assert a in q[..|q| - 1];
  }

  lemma WaiterLists(s: State, u: Hash, t: Hash, a: Address)
    requires Inv(s) && Waits(s, u, t) && Holds(s, u, a)
    ensures var q, b := Queue(s, u), s.phase[u].addr;
      && |q| > 0 && q[|q| - 1] == b && Holds(s, t, b) && Holder(s, b) != u
      && a in q[..|q| - 1] && Holder(s, a) == u
  {
    assert TxInv(s, u);
    hide Inv;
  }

  lemma RunningQueue(s: State, t: Hash, b: Address)
    requires Inv(s) && t in s.phase && s.phase[t].Running? && Holds(s, t, b)
    ensures b in Queue(s, t) && Holder(s, b) == t
  {
    assert TxInv(s, t);
    hide Inv;
  }

  /** The panic is raised exactly when the recorded holder of the account is itself
      blocked on a mutex that the requester holds. */
  lemma PanicIsExact(s: State, t: Hash, a: Address)
    requires Inv(s) && Enabled(s, Request(t, a)) && Holder(s, a) != t && Holder(s, a) != 0
    ensures Apply(s, Request(t, a)).phase[t].Panicked? <==> Waits(s, Holder(s, a), t)
  {
    var u := Holder(s, a);
    assert TxInv(s, t) && TxInv(s, u);
    if DeadlockSeen(s, t, a) {
      var q := Queue(s, u);
      var b := q[|q| - 1];
      assert b in q && b in Queue(s, t) && Holds(s, t, b);
    }
    if Waits(s, u, t) {
      RecordedIsHeld(s, u, a);
      MutualWaitSeen(s, t, a, u);
    }
  }

  /** Waits between transactions that do not act were there before. */
  lemma OldWait(s: State, act: Action, x: Hash, y: Hash)
    requires Inv(s) && Enabled(s, act) && Waits(Apply(s, act), x, y) && x != act.tx && y != act.tx
    ensures Waits(s, x, y)
  {
    OthersStep(s, act, x, 0);
    assert TxInv(s, x);
    OthersStep(s, act, y, s.phase[x].lock);
  }

  /** An action neither moves another transaction nor gives it a mutex. */
  lemma OthersStep(s: State, act: Action, u: Hash, l: MutexId)
    requires Enabled(s, act) && u != act.tx
    ensures var s' := Apply(s, act);
            && (u in s'.phase <==> u in s.phase) && (u in s.phase ==> s'.phase[u] == s.phase[u])
            && (l < |s.mutexes| ==> l < |s'.mutexes| && (s'.mutexes[l] == Some(u) ==> s.mutexes[l] == Some(u)))
  {
  }

  lemma NewWaiter(s: State, act: Action, y: Hash)
    requires Inv(s) && Enabled(s, act) && NoMutualWait(s)
    requires Waits(Apply(s, act), act.tx, y) && y != act.tx
    ensures !Waits(Apply(s, act), y, act.tx)
  {
    var t, s' := act.tx, Apply(s, act);
    assert TxInv(s, t);
    assert act.Request?;
    if Waits(s', y, t) {
      assert Waits(s, y, t);
      assert Holds(s, y, act.addr);
      MutualWaitSeen(s, t, act.addr, y);
    }
  }

  lemma StepKeepsNoMutualWait(s: State, act: Action)
    requires Inv(s) && Enabled(s, act) && NoMutualWait(s)
    ensures NoMutualWait(Apply(s, act))
  {
    hide Inv, Enabled, Apply, Waits;
    var s' := Apply(s, act);
    StepKeepsInv(s, act);
    forall x, y | Waits(s', x, y)
      ensures !Waits(s', y, x)
    {
      if Waits(s', y, x) {
        if x == y {
          WaiterHoldsNothingItWaitsFor(s', x);
        } else if x == act.tx {
          NewWaiter(s, act, y);
        } else if y == act.tx {
          NewWaiter(s, act, x);
        } else {
          OldWait(s, act, x, y);
          OldWait(s, act, y, x);
        }
      }
    }
  }

  /** In no reachable state do two transactions wait for each other. */
  lemma {:induction false} RunKeepsNoMutualWait(s: State, acts: seq<Action>)
    requires Inv(s) && NoMutualWait(s) && ValidRun(s, acts)
    ensures NoMutualWait(Run(s, acts))
    decreases |acts|
  {
    hide Inv, NoMutualWait, Apply, Enabled;
    if acts != [] {
      StepKeepsInv(s, acts[0]);
      StepKeepsNoMutualWait(s, acts[0]);
      RunKeepsNoMutualWait(Apply(s, acts[0]), acts[1..]);
    }
  }

  // ----- Deadlock

  /** A set of transactions each blocked on another member can never move again. */
  ghost predicate Deadlocked(s: State, d: set<Hash>)
  {
    d != {} && forall t :: t in d ==> WaitsIn(s, t, d)
  }

  ghost predicate WaitsIn(s: State, t: Hash, d: set<Hash>)
  {
    exists u :: u in d && Waits(s, t, u)
  }

  ghost predicate DeadlockFree(txs: set<Hash>)
  {
    forall acts, d :: ValidRun(Init(txs), acts) ==> !Deadlocked(Run(Init(txs), acts), d)
  }

  lemma WaitIsInside(s: State, t: Hash, u: Hash)
    requires Inv(s) && Waits(s, t, u)
    ensures t in s.phase && u in s.phase && t != u
  {
    WaiterHoldsNothingItWaitsFor(s, t);
  }

  lemma NextInCycle(s: State, d: set<Hash>, t: Option<Hash>) returns (u: Hash)
    requires Deadlocked(s, d) && (t.Some? ==> t.value in d)
    ensures u in d && (t.Some? ==> Waits(s, t.value, u))
  {
    hide Waits;
    if t.Some? {
      u :| u in d && Waits(s, t.value, u);
    } else {
      u :| u in d;
    }
  }

  lemma PairNeverDeadlocks(s: State, d: set<Hash>)
    requires Inv(s) && NoMutualWait(s) && |s.phase.Keys| <= 2
    ensures !Deadlocked(s, d)
  {
    hide Inv, Waits, Deadlocked;
    if Deadlocked(s, d) {
      var t := NextInCycle(s, d, None);
      var u := NextInCycle(s, d, Some(t));
      var w := NextInCycle(s, d, Some(u));
      WaitIsInside(s, t, u);
      WaitIsInside(s, u, w);
      assert w != t;
      SubsetCard({t, u, w}, s.phase.Keys);
      ThreeElements(t, u, w);
    }
  }

  lemma ThreeElements<T>(x: T, y: T, z: T)
    requires x != y && y != z && x != z
    ensures |{x, y, z}| == 3
  {
    assert {x, y, z} == {x} + {y, z};
  }

  lemma {:induction false} SubsetCard<T>(a: set<T>, b: set<T>)
    requires a <= b
    ensures |a| <= |b|
    decreases a
  {
    if a != {} {
      var x :| x in a;
      SubsetCard(a - {x}, b - {x});
    }
  }

  lemma {:induction false} KeysStay(s: State, acts: seq<Action>)
    requires ValidRun(s, acts)
    ensures Run(s, acts).phase.Keys == s.phase.Keys
    decreases |acts|
  {
    if acts != [] {
      KeysStay(Apply(s, acts[0]), acts[1..]);
      assert Apply(s, acts[0]).phase.Keys == s.phase.Keys;
    }
  }

  lemma {:induction false} RunSnoc(s: State, acts: seq<Action>, act: Action)
    requires ValidRun(s, acts) && Enabled(Run(s, acts), act)
    ensures ValidRun(s, acts + [act]) && Run(s, acts + [act]) == Apply(Run(s, acts), act)
    decreases |acts|
  {
    hide Apply, Enabled;
    if acts == [] {
      assert (acts + [act])[1..] == [];
    } else {
      assert (acts + [act])[1..] == acts[1..] + [act];
      RunSnoc(Apply(s, acts[0]), acts[1..], act);
    }
  }

  /** A transaction locks an account nobody has asked for before. */
  lemma LocksFresh(s: State, t: Hash, a: Address)
    requires !s.fatal && t in s.phase && s.phase[t].Running? && t != 0 && a !in s.lockedAccount
    ensures Enabled(s, Request(t, a))
    ensures Apply(s, Request(t, a)) ==
            s.(lockedAccount := s.lockedAccount[a := t], accountLock := s.accountLock[a := |s.mutexes|],
               mutexes := s.mutexes + [Some(t)], txLockQueue := s.txLockQueue[t := Queue(s, t) + [a]])
  {
  }

  /** Three transactions lock one account each and then ask for the next one's: no
      holder is blocked on the requester itself, so no request is refused. */
  lemma ThreeCanDeadlock(txs: set<Hash>, t1: Hash, t2: Hash, t3: Hash) returns (acts: seq<Action>)
    requires 0 !in txs && {t1, t2, t3} <= txs && t1 != t2 && t2 != t3 && t1 != t3
    ensures ValidRun(Init(txs), acts) && Deadlocked(Run(Init(txs), acts), {t1, t2, t3})
  {
    var s0 := Init(txs);
    LocksFresh(s0, t1, 1);
    RunSnoc(s0, [], Request(t1, 1));
    var s1 := Apply(s0, Request(t1, 1));
    LocksFresh(s1, t2, 2);
    RunSnoc(s0, [Request(t1, 1)], Request(t2, 2));
    var s2 := Apply(s1, Request(t2, 2));
    LocksFresh(s2, t3, 3);
    acts := [Request(t1, 1), Request(t2, 2)];
    RunSnoc(s0, acts, Request(t3, 3));
    acts := acts + [Request(t3, 3)];
    ThirdRound(s0, acts, t1, t2, t3);
    acts := acts + [Request(t1, 2), Request(t2, 3), Request(t3, 1)];
  }

  lemma ThirdRound(s0: State, acts: seq<Action>, t1: Hash, t2: Hash, t3: Hash)
    requires ValidRun(s0, acts) && t1 != t2 && t2 != t3 && t1 != t3 && 0 !in {t1, t2, t3}
    requires var s := Run(s0, acts);
             && !s.fatal && t1 in s.phase && t2 in s.phase && t3 in s.phase
             && s.phase[t1] == s.phase[t2] == s.phase[t3] == Running
             && Queue(s, t1) == [1] && Queue(s, t2) == [2] && Queue(s, t3) == [3]
             && Holder(s, 1) == t1 && Holder(s, 2) == t2 && Holder(s, 3) == t3
             && Holds(s, t1, 1) && Holds(s, t2, 2) && Holds(s, t3, 3)
    ensures var acts' := acts + [Request(t1, 2), Request(t2, 3), Request(t3, 1)];
            ValidRun(s0, acts') && Deadlocked(Run(s0, acts'), {t1, t2, t3})
  {
    hide Apply, Run, ValidRun, Enabled, DeadlockSeen;
    var s := Run(s0, acts);
    Blocks(s, t1, 2, t2);
    RunSnoc(s0, acts, Request(t1, 2));
    var s4 := Apply(s, Request(t1, 2));
    Blocks(s4, t2, 3, t3);
    RunSnoc(s0, acts + [Request(t1, 2)], Request(t2, 3));
    var s5 := Apply(s4, Request(t2, 3));
    Blocks(s5, t3, 1, t1);
    RunSnoc(s0, acts + [Request(t1, 2)] + [Request(t2, 3)], Request(t3, 1));
    assert acts + [Request(t1, 2)] + [Request(t2, 3)] + [Request(t3, 1)]
        == acts + [Request(t1, 2), Request(t2, 3), Request(t3, 1)];
    var s6 := Apply(s5, Request(t3, 1));
    assert Waits(s6, t1, t2) && Waits(s6, t2, t3) && Waits(s6, t3, t1);
  }

  /** A request for an account of u blocks unless u is itself blocked on the requester. */
  lemma Blocks(s: State, t: Hash, a: Address, u: Hash)
    requires !s.fatal && t in s.phase && s.phase[t].Running? && Holder(s, a) == u && u != t && u != 0 && Holds(s, u, a)
    requires |Queue(s, u)| <= 1 || Queue(s, u)[|Queue(s, u)| - 1] !in Queue(s, t)
    ensures Enabled(s, Request(t, a))
    ensures Apply(s, Request(t, a)) ==
            s.(txLockQueue := s.txLockQueue[t := Queue(s, t) + [a]], phase := s.phase[t := Waiting(a, s.accountLock[a])])
  {
  }

  /** The check of the recorded holder alone prevents deadlock for up to two
      transactions, and for no larger set. */
  lemma DeadlockFreeIff(txs: set<Hash>)
    requires 0 !in txs
    ensures DeadlockFree(txs) <==> |txs| <= 2
  {
    if |txs| <= 2 {
      forall acts, d | ValidRun(Init(txs), acts)
        ensures !Deadlocked(Run(Init(txs), acts), d)
      {
        InitInv(txs);
        RunKeepsInv(Init(txs), acts);
        RunKeepsNoMutualWait(Init(txs), acts);
        KeysStay(Init(txs), acts);
        assert Init(txs).phase.Keys == txs;
        PairNeverDeadlocks(Run(Init(txs), acts), d);
      }
    } else {
      var t1 :| t1 in txs;
      assert |txs - {t1}| > 1;
      var t2 :| t2 in txs - {t1};
      assert |txs - {t1} - {t2}| > 0;
      var t3 :| t3 in txs - {t1} - {t2};
      var acts := ThreeCanDeadlock(txs, t1, t2, t3);
    }
  }
}
