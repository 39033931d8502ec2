/** Which states of the lock manager can still end: those without a deadlock, exactly. */
module AccountProgress {
  import opened AccountLocks
  import opened Wrappers

  ghost predicate AllDone(s: State)
  {
    forall t :: t in s.phase ==> s.phase[t].Done?
  }

  /** Some way to go on ends every transaction. */
  ghost predicate CanFinish(s: State)
  {
    exists acts :: ValidRun(s, acts) && AllDone(Run(s, acts))
  }

  // ----- A deadlock is for good

  lemma KeepsMutex(s: State, act: Action, u: Hash, l: MutexId)
    requires Inv(s) && Enabled(s, act) && u != act.tx && l < |s.mutexes| && s.mutexes[l] == Some(u)
    ensures l < |Apply(s, act).mutexes| && Apply(s, act).mutexes[l] == Some(u)
  {
    hide Inv, Holder, Queue, LocksOf, DeadlockSeen;
    if act.UnlockOne? && s.phase[act.tx].locks != [] {
      ReleasesOwn(s, act.tx);
    }
  }

  lemma ReleasesOwn(s: State, t: Hash)
    requires Inv(s) && t in s.phase && s.phase[t].Unlocking? && s.phase[t].locks != []
    ensures var l := s.phase[t].locks[0]; l < |s.mutexes| && s.mutexes[l] == Some(t)
  {
    hide Consistent;
    assert TxInv(s, t);
    assert s.phase[t].locks[0] in s.phase[t].locks;
  }

  lemma WaitStays(s: State, act: Action, x: Hash, y: Hash)
    requires Inv(s) && Enabled(s, act) && Waits(s, x, y) && x != act.tx && y != act.tx
    ensures Waits(Apply(s, act), x, y)
  {
    hide Inv, Apply, Enabled;
    OthersStep(s, act, x, 0);
    KeepsMutex(s, act, y, s.phase[x].lock);
  }

  /** Who waits for a mutex that is held can do nothing. */
  lemma WaiterIsStuck(s: State, act: Action, u: Hash)
    requires Enabled(s, act)
    ensures !Waits(s, act.tx, u)
  {
  }

  lemma StuckOne(s: State, act: Action, d: set<Hash>, t: Hash) returns (u: Hash)
    requires Inv(s) && Enabled(s, act) && Deadlocked(s, d) && t in d
    ensures u in d && Waits(Apply(s, act), t, u)
  {
    hide Inv, Apply, Enabled, Waits;
    u := NextInCycle(s, d, Some(t));
    var v := NextInCycle(s, d, Some(u));
    hide Deadlocked;
    WaiterIsStuck(s, act, u);
    WaiterIsStuck(s, act, v);
    WaitStays(s, act, t, u);
  }

  lemma Inside(s: State, t: Hash, u: Hash, d: set<Hash>)
    requires u in d && Waits(s, t, u)
    ensures WaitsIn(s, t, d)
  {
  }

  lemma StuckStays(s: State, act: Action, d: set<Hash>)
    requires Inv(s) && Enabled(s, act) && Deadlocked(s, d)
    ensures Deadlocked(Apply(s, act), d)
  {
    hide Inv, Apply, Enabled, Waits, WaitsIn;
    forall t | t in d
      ensures WaitsIn(Apply(s, act), t, d)
    {
      var u := StuckOne(s, act, d, t);
      Inside(Apply(s, act), t, u, d);
    }
  }

  lemma {:induction false} StuckForever(s: State, acts: seq<Action>, d: set<Hash>)
    requires Inv(s) && ValidRun(s, acts) && Deadlocked(s, d)
    ensures Deadlocked(Run(s, acts), d)
    decreases |acts|
  {
    hide Inv, Apply, Enabled, Deadlocked;
    if acts != [] {
      StepKeepsInv(s, acts[0]);
      StuckStays(s, acts[0], d);
      StuckForever(Apply(s, acts[0]), acts[1..], d);
    }
  }

  // ----- One transaction runs to its end

  predicate Movable(s: State, t: Hash)
  {
    && t in s.phase && !s.phase[t].Done?
    && (s.phase[t].Waiting? ==> s.phase[t].lock < |s.mutexes| && s.mutexes[s.phase[t].lock] == None)
  }

  predicate Alone(acts: seq<Action>, t: Hash)
  {
    forall i :: 0 <= i < |acts| ==> acts[i].tx == t
  }

  /** These actions of t are its last. */
  ghost predicate Ends(s: State, acts: seq<Action>, t: Hash)
  {
    ValidRun(s, acts) && Alone(acts, t) && t in Run(s, acts).phase && Run(s, acts).phase[t].Done?
  }

  lemma StepThen(s: State, act: Action, acts: seq<Action>)
    requires Enabled(s, act) && Ends(Apply(s, act), acts, act.tx)
    ensures Ends(s, [act] + acts, act.tx)
  {
    hide Apply, Enabled;
    assert ([act] + acts)[1..] == acts;
  }

  /** The phase after a step. */
  ghost predicate Leads(s: State, act: Action, p: Phase)
  {
    Enabled(s, act) && Inv(Apply(s, act)) && act.tx in Apply(s, act).phase && Apply(s, act).phase[act.tx] == p
  }

  lemma UnlockLeads(s: State, t: Hash)
    requires Inv(s) && t in s.phase && s.phase[t].Unlocking?
    ensures var ls := s.phase[t].locks; Leads(s, UnlockOne(t), if ls == [] then Done else Unlocking(ls[1..]))
  {
    var ls := s.phase[t].locks;
    assert TxInv(s, t);
    assert ls != [] ==> ls[0] in ls;
    StepKeepsInv(s, UnlockOne(t));
    hide Inv;
  }

  lemma StartLeads(s: State, t: Hash, addTx: bool)
    requires Inv(s) && t in s.phase && (s.phase[t].Running? || s.phase[t].Panicked?)
    ensures Leads(s, StartUnlock(t, addTx), Unlocking(LocksOf(s, Queue(s, t))))
  {
    assert !s.fatal;
    StepKeepsInv(s, StartUnlock(t, addTx));
    hide Inv, LocksOf, Queue;
  }

  lemma RecordLeads(s: State, t: Hash)
    requires Inv(s) && t in s.phase && s.phase[t].Acquired?
    ensures Leads(s, Record(t), Running)
  {
    assert !s.fatal;
    StepKeepsInv(s, Record(t));
    hide Inv;
  }

  lemma AcquireLeads(s: State, t: Hash)
    requires Inv(s) && Movable(s, t) && s.phase[t].Waiting?
    ensures Leads(s, Acquire(t), Acquired(s.phase[t].addr))
  {
    assert !s.fatal;
    StepKeepsInv(s, Acquire(t));
    hide Inv;
  }

  lemma NothingLeft(s: State, t: Hash)
    requires t in s.phase && s.phase[t].Done?
    ensures Ends(s, [], t)
  {
  }

  lemma {:induction false} Release(s: State, t: Hash) returns (acts: seq<Action>)
    requires Inv(s) && t in s.phase && s.phase[t].Unlocking?
    ensures Ends(s, acts, t)
    decreases |s.phase[t].locks|
  {
    hide Inv, Apply, Enabled, Ends;
    UnlockLeads(s, t);
    var s' := Apply(s, UnlockOne(t));
    acts := [];
    if s.phase[t].locks == [] {
      NothingLeft(s', t);
    } else {
      acts := Release(s', t);
    }
    StepThen(s, UnlockOne(t), acts);
    acts := [UnlockOne(t)] + acts;
  }

  lemma Unlock(s: State, t: Hash) returns (acts: seq<Action>)
    requires Inv(s) && t in s.phase && (s.phase[t].Running? || s.phase[t].Panicked?)
    ensures Ends(s, acts, t)
  {
    hide Inv, Apply, Enabled, Ends;
    var act := StartUnlock(t, s.phase[t].Running?);
    StartLeads(s, t, act.addTx);
    acts := Release(Apply(s, act), t);
    StepThen(s, act, acts);
    acts := [act] + acts;
  }

  lemma RecordAndUnlock(s: State, t: Hash) returns (acts: seq<Action>)
    requires Inv(s) && t in s.phase && s.phase[t].Acquired?
    ensures Ends(s, acts, t)
  {
    hide Inv, Apply, Enabled, Ends;
    RecordLeads(s, t);
    acts := Unlock(Apply(s, Record(t)), t);
    StepThen(s, Record(t), acts);
    acts := [Record(t)] + acts;
  }

  lemma Finish(s: State, t: Hash) returns (acts: seq<Action>)
    requires Inv(s) && Movable(s, t)
    ensures Ends(s, acts, t)
  {
    hide Inv, Apply, Enabled, Ends;
    match s.phase[t]
    case Running => acts := Unlock(s, t);
    case Panicked => acts := Unlock(s, t);
    case Acquired(_) => acts := RecordAndUnlock(s, t);
    case Unlocking(_) => acts := Release(s, t);
    case Waiting(_, _) =>
      AcquireLeads(s, t);
      acts := RecordAndUnlock(Apply(s, Acquire(t)), t);
      StepThen(s, Acquire(t), acts);
      acts := [Acquire(t)] + acts;
  }

  /** What t does alone moves no other transaction and makes none wait for another. */
  lemma {:induction false} AloneLeaves(s: State, t: Hash, acts: seq<Action>)
    requires Inv(s) && ValidRun(s, acts) && Alone(acts, t)
    ensures var s' := Run(s, acts);
            && Inv(s') && s'.phase.Keys == s.phase.Keys
            && (forall x :: x in s.phase && x != t ==> s'.phase[x] == s.phase[x])
            && (forall x, y :: x != t && y != t && Waits(s', x, y) ==> Waits(s, x, y))
    decreases |acts|
  {
    hide Inv, Apply, Enabled, Waits;
    if acts != [] {
      var s1 := Apply(s, acts[0]);
      StepKeepsInv(s, acts[0]);
      assert s1.phase.Keys == s.phase.Keys by { KeysStay(s, [acts[0]]); }
      AloneLeaves(s1, t, acts[1..]);
      forall x | x in s.phase && x != t
        ensures s1.phase[x] == s.phase[x]
      {
        OthersStep(s, acts[0], x, 0);
      }
      forall x, y | x != t && y != t && Waits(s1, x, y)
        ensures Waits(s, x, y)
      {
        OldWait(s, acts[0], x, y);
      }
    }
  }

  // ----- All of them do

  function Pending(s: State): (p: set<Hash>)
  {
    set t | t in s.phase && !s.phase[t].Done?
  }

  /** A transaction that waits for a mutex waits for one that has not ended. */
  lemma HolderPending(s: State, t: Hash)
    requires Inv(s) && t in Pending(s) && !Movable(s, t)
    ensures WaitsIn(s, t, Pending(s))
  {
    assert TxInv(s, t);
    var p := s.phase[t];
    var u := s.mutexes[p.lock].value;
    assert Holds(s, u, p.addr);
    assert TxInv(s, u);
    assert Waits(s, t, u);
  }

  lemma SomeoneMoves(s: State) returns (t: Hash)
    requires Inv(s) && Pending(s) != {} && !Deadlocked(s, Pending(s))
    ensures t in Pending(s) && Movable(s, t)
  {
    hide Inv, Waits, Movable;
    if forall u :: u in Pending(s) ==> !Movable(s, u) {
      forall u | u in Pending(s)
        ensures WaitsIn(s, u, Pending(s))
      {
        HolderPending(s, u);
      }
      assert false;
    }
    t :| t in Pending(s) && Movable(s, t);
  }

  lemma {:induction false} RunJoin(s: State, a: seq<Action>, b: seq<Action>)
    requires ValidRun(s, a) && ValidRun(Run(s, a), b)
    ensures ValidRun(s, a + b) && Run(s, a + b) == Run(Run(s, a), b)
    decreases |a|
  {
    hide Apply, Enabled;
    if a == [] {
      assert a + b == b;
    } else {
      assert (a + b)[1..] == a[1..] + b;
      RunJoin(Apply(s, a[0]), a[1..], b);
    }
  }

  lemma WaitedBefore(s: State, t: Hash, acts: seq<Action>, d: set<Hash>, x: Hash)
    requires Inv(s) && Ends(s, acts, t) && Deadlocked(Run(s, acts), d) && x in d
    ensures WaitsIn(s, x, d)
  {
    hide Inv, ValidRun, Run, Waits, WaitsIn;
    AloneLeaves(s, t, acts);
    var s' := Run(s, acts);
    DoneIsFree(s', t, d);
    assert t !in d;
    var u := NextInCycle(s', d, Some(x));
    hide Deadlocked, Ends;
    Inside(s, x, u, d);
  }

  /** No new deadlock comes from a transaction that ran to its end. */
  lemma NoNewDeadlock(s: State, t: Hash, acts: seq<Action>, d: set<Hash>)
    requires Inv(s) && Ends(s, acts, t) && Deadlocked(Run(s, acts), d)
    ensures Deadlocked(s, d)
  {
    hide Inv, Run, Ends, WaitsIn;
    forall x | x in d
      ensures WaitsIn(s, x, d)
    {
      WaitedBefore(s, t, acts, d, x);
    }
  }

  lemma DoneIsFree(s: State, t: Hash, d: set<Hash>)
    requires t in s.phase && s.phase[t].Done?
    ensures !WaitsIn(s, t, d)
  {
  }

  /** Without a deadlock one transaction after another runs to its end. */
  lemma {:induction false} FinishAll(s: State) returns (acts: seq<Action>)
    requires Inv(s) && forall d :: !Deadlocked(s, d)
    ensures ValidRun(s, acts) && AllDone(Run(s, acts))
    decreases Pending(s)
  {
    hide Inv, Deadlocked, ValidRun, Run, Movable;
    acts := [];
    if Pending(s) == {} {
      NothingToDo(s);
    } else {
      var t := SomeoneMoves(s);
      var a := Finish(s, t);
      AloneLeaves(s, t, a);
      var s' := Run(s, a);
      forall d
        ensures !Deadlocked(s', d)
      {
        if Deadlocked(s', d) {
          NoNewDeadlock(s, t, a, d);
        }
      }
      assert Pending(s') < Pending(s) by { assert t !in Pending(s'); }
      var b := FinishAll(s');
      RunJoin(s, a, b);
      acts := a + b;
    }
  }

  lemma NothingToDo(s: State)
    requires Pending(s) == {}
    ensures ValidRun(s, []) && AllDone(Run(s, []))
  {
    assert forall t :: t in s.phase && !s.phase[t].Done? ==> t in Pending(s);
  }

  /** A state reached in any run can end all transactions if and only if no set of them
      waits in itself. */
  lemma CanFinishIff(txs: set<Hash>, acts: seq<Action>)
    requires 0 !in txs && ValidRun(Init(txs), acts)
    ensures var s := Run(Init(txs), acts); CanFinish(s) <==> forall d :: !Deadlocked(s, d)
  {
    hide Deadlocked, ValidRun, Run, AllDone;
    var s := Run(Init(txs), acts);
    assert Inv(s) by { InitInv(txs); RunKeepsInv(Init(txs), acts); }
    hide Inv;
    if CanFinish(s) {
      var rest :| ValidRun(s, rest) && AllDone(Run(s, rest));
      forall d
        ensures !Deadlocked(s, d)
      {
        if Deadlocked(s, d) {
          StuckForever(s, rest, d);
          DoneWaitsForNone(Run(s, rest), d);
        }
      }
    } else if forall d :: !Deadlocked(s, d) {
      var rest := FinishAll(s);
    }
  }

  lemma DoneWaitsForNone(s: State, d: set<Hash>)
    requires AllDone(s)
    ensures !Deadlocked(s, d)
  {
    if Deadlocked(s, d) {
      var t := NextInCycle(s, d, None);
      var u := NextInCycle(s, d, Some(t));
    }
  }

  /** Every run can be brought to an end if and only if there are at most two transactions. */
  lemma AlwaysFinishesIff(txs: set<Hash>)
    requires 0 !in txs
    ensures (forall acts :: ValidRun(Init(txs), acts) ==> CanFinish(Run(Init(txs), acts))) <==> |txs| <= 2
  {
    hide Deadlocked, ValidRun, Run, CanFinish;
    DeadlockFreeIff(txs);
    forall acts | ValidRun(Init(txs), acts)
      ensures CanFinish(Run(Init(txs), acts)) <==> forall d :: !Deadlocked(Run(Init(txs), acts), d)
    {
      CanFinishIff(txs, acts);
    }
    if |txs| > 2 {
      var acts, d :| ValidRun(Init(txs), acts) && Deadlocked(Run(Init(txs), acts), d);
      assert !CanFinish(Run(Init(txs), acts));
    }
  }
}
