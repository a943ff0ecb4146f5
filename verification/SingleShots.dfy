/** The single-shot protocol of the callback queue under any interleaving of any number of
    threads: some register a callback and wait, others dispatch. Each step is what one
    thread does between two points where another thread could get in. Every registration
    carries a fresh ticket, so that a run of its callback can be told from any other. */
module SingleShots {
  import opened CallbackTable

  type Tid = nat

  /** Where a thread is. */
  datatype Pc =
    | Outside
    | Registering                                // holds the mutex, nothing registered yet
    | Checking(ticket: nat, timedOut: bool)      // holds the mutex, about to test the predicate
    | Sleeping(ticket: nat)                      // inside the wait, mutex released
    | Waking(ticket: nat, timedOut: bool)        // notified, timed out or woken spuriously; wants the mutex
    | Finished(ticket: nat, result: bool)        // returned from add_single_shot
    | Dispatching(todo: set<int>)                // in call, holds the mutex, shots still to run
    | Notifying                                  // in call, mutex released, notify_all not done
  {
    predicate HoldsMutex() {
      Registering? || Checking? || Dispatching?
    }

    predicate Waits() {
      Checking? || Sleeping? || Waking?
    }
  }

  datatype Holder = Free | Held(thread: Tid)

  datatype State = State(
    holder: Holder,              // sShotsMutex_
    called: bool,                // sShotsCalled_
    shots: map<int, nat>,        // singleShots_, identifier to ticket
    ran: seq<nat>,               // tickets of the callbacks run so far
    tickets: nat,                // tickets issued so far
    pcs: map<Tid, Pc>)
  {
    function At(t: Tid): Pc {
      if t in pcs then pcs[t] else Outside
    }

    function Move(t: Tid, pc: Pc): State {
      this.(pcs := pcs[t := pc])
    }

    /** Nothing registered, nobody about; the flag is uninitialised. */
    predicate Initial() {
      holder == Free && shots == map[] && ran == [] && tickets == 0 && pcs == map[]
    }

    predicate Pending(ticket: nat) {
      exists id :: id in shots && shots[id] == ticket
    }

    /** The pending shots that the dispatch in progress, if any, has not run yet. */
    function Todo(): set<int> {
      if holder.Held? && At(holder.thread).Dispatching? then At(holder.thread).todo else shots.Keys
    }
  }

  datatype Action =
    | LockToAdd(t: Tid)
    | Register(t: Tid)                 // CallbackQueue.h:107-111
    | Check(t: Tid)                    // the predicate of wait and wait_for, then return or sleep
    | Wake(t: Tid, timeout: bool)      // spurious wake-up or timeout
    | Relock(t: Tid)
    | LockToCall(t: Tid)
    | RunShot(t: Tid, id: int)
    | FinishCall(t: Tid)               // CallbackQueue.h:150-152
    | Notify(t: Tid)

  predicate Enabled(s: State, a: Action) {
    match a
    case LockToAdd(t) => s.holder == Free && (s.At(t).Outside? || s.At(t).Finished?)
    case Register(t) => s.At(t).Registering?
    case Check(t) => s.At(t).Checking?
    case Wake(t, _) => s.At(t).Sleeping?
    case Relock(t) => s.holder == Free && s.At(t).Waking?
    case LockToCall(t) => s.holder == Free && (s.At(t).Outside? || s.At(t).Finished?)
    case RunShot(t, id) => s.At(t).Dispatching? && id in s.At(t).todo && id in s.shots
    case FinishCall(t) => s.At(t).Dispatching? && s.At(t).todo == {}
    case Notify(t) => s.At(t).Notifying?
  }

  function Step(s: State, a: Action): State
    requires Enabled(s, a)
  {
    match a
    case LockToAdd(t) => s.Move(t, Registering).(holder := Held(t))
    case Register(t) =>
      s.Move(t, Checking(s.tickets, false)).(
        called := false, shots := s.shots[FreshId(s.shots.Keys) := s.tickets], tickets := s.tickets + 1)
    case Check(t) =>
      var pc := s.At(t);
      (if s.called then s.Move(t, Finished(pc.ticket, true))
       else if pc.timedOut then s.Move(t, Finished(pc.ticket, false))
       else s.Move(t, Sleeping(pc.ticket))).(holder := Free)
    case Wake(t, timeout) => s.Move(t, Waking(s.At(t).ticket, timeout))
    case Relock(t) => s.Move(t, Checking(s.At(t).ticket, s.At(t).timedOut)).(holder := Held(t))
    case LockToCall(t) => s.Move(t, Dispatching(s.shots.Keys)).(holder := Held(t))
    case RunShot(t, id) => s.Move(t, Dispatching(s.At(t).todo - {id})).(ran := s.ran + [s.shots[id]])
    case FinishCall(t) => s.Move(t, Notifying).(shots := map[], called := true, holder := Free)
    case Notify(t) =>
      s.(pcs := map u | u in s.pcs :: if u == t then Outside
                                      else if s.pcs[u].Sleeping? then Waking(s.pcs[u].ticket, false) else s.pcs[u])
  }

  // ---------------------------------------------------------------- runs

  predicate Feasible(s: State, run: seq<Action>)
    decreases |run|
  {
    run == [] || (Enabled(s, run[0]) && Feasible(Step(s, run[0]), run[1..]))
  }

  function Run(s: State, run: seq<Action>): State
    requires Feasible(s, run)
    decreases |run|
  {
    if run == [] then s else Run(Step(s, run[0]), run[1..])
  }

  // ---------------------------------------------------------------- invariant

  /** The mutex is held by exactly the thread that is inside a critical section. */
  ghost predicate MutexInv(s: State) {
    forall t: Tid :: s.At(t).HoldsMutex() <==> s.holder == Held(t)
  }

  /** The flag is up only while no single shot is pending. */
  predicate FlagInv(s: State) {
    s.called ==> s.shots == map[]
  }

  ghost predicate TicketInv(s: State) {
    && (forall id :: id in s.shots ==> s.shots[id] < s.tickets)
    && (forall i, j :: i in s.shots && j in s.shots && i != j ==> s.shots[i] != s.shots[j])
    && (forall k :: k in s.ran ==> k < s.tickets)
    && (forall t: Tid :: s.At(t).Waits() ==> s.At(t).ticket < s.tickets)
  }

  predicate OnceInv(s: State) {
    forall i, j :: 0 <= i < j < |s.ran| ==> s.ran[i] != s.ran[j]
  }

  /** A pending shot has run exactly if the dispatch in progress has got to it. */
  predicate DispatchInv(s: State) {
    && s.Todo() <= s.shots.Keys
    && (forall id :: id in s.shots ==> (s.shots[id] in s.ran <==> id !in s.Todo()))
  }

  /** No registration is ever lost. */
  ghost predicate LedgerInv(s: State) {
    forall k: nat :: k < s.tickets ==> k in s.ran || s.Pending(k)
  }

  ghost predicate ResultInv(s: State) {
    forall t: Tid :: s.At(t).Finished? && s.At(t).result ==> s.At(t).ticket in s.ran
  }

  ghost predicate Inv(s: State) {
    MutexInv(s) && FlagInv(s) && TicketInv(s) && OnceInv(s) && DispatchInv(s) && LedgerInv(s) && ResultInv(s)
  }

  lemma InitialInv(s: State)
    requires s.Initial()
    ensures Inv(s)
  {
  }

  lemma MutexStep(s: State, a: Action)
    requires Inv(s) && Enabled(s, a)
    ensures MutexInv(Step(s, a))
  {
  }

  lemma FlagStep(s: State, a: Action)
    requires Inv(s) && Enabled(s, a)
    ensures FlagInv(Step(s, a))
  {
  }

  predicate ShotTickets(s: State) {
    && (forall id :: id in s.shots ==> s.shots[id] < s.tickets)
    && (forall i, j :: i in s.shots && j in s.shots && i != j ==> s.shots[i] != s.shots[j])
  }

  lemma ShotTicketStep(s: State, a: Action)
    requires ShotTickets(s) && Enabled(s, a)
    ensures ShotTickets(Step(s, a))
  {
    hide FreshId;
  }

  lemma RanTicketStep(s: State, a: Action)
    requires ShotTickets(s) && Enabled(s, a) && forall k :: k in s.ran ==> k < s.tickets
    ensures forall k :: k in Step(s, a).ran ==> k < Step(s, a).tickets
  {
    hide FreshId;
  }

  lemma WaitTicketStep(s: State, a: Action)
    requires Enabled(s, a) && forall t: Tid :: s.At(t).Waits() ==> s.At(t).ticket < s.tickets
    ensures forall t: Tid :: Step(s, a).At(t).Waits() ==> Step(s, a).At(t).ticket < Step(s, a).tickets
  {
    hide FreshId;
    var s' := Step(s, a);
    forall t: Tid | s'.At(t).Waits() ensures s'.At(t).ticket < s'.tickets {
      assert s.At(t).Waits() ==> s.At(t).ticket < s.tickets;
    }
  }

  lemma TicketStep(s: State, a: Action)
    requires Inv(s) && Enabled(s, a)
    ensures TicketInv(Step(s, a))
  {
    hide Step, Enabled, MutexInv, FlagInv, OnceInv, DispatchInv, LedgerInv, ResultInv;
    ShotTicketStep(s, a);
    RanTicketStep(s, a);
    WaitTicketStep(s, a);
  }

  lemma OnceStep(s: State, a: Action)
    requires Inv(s) && Enabled(s, a)
    ensures OnceInv(Step(s, a))
  {
    if a.RunShot? {
      assert s.holder == Held(a.t);
    }
  }

  lemma DispatchStep(s: State, a: Action)
    requires Inv(s) && Enabled(s, a)
    ensures DispatchInv(Step(s, a))
  {
    var s' := Step(s, a);
    assert s.At(a.t).HoldsMutex() <==> s.holder == Held(a.t);
    assert a.Notify? && s.holder.Held? ==> s'.At(s.holder.thread) == s.At(s.holder.thread);
  }

  lemma LedgerStep(s: State, a: Action)
    requires Inv(s) && Enabled(s, a)
    ensures LedgerInv(Step(s, a))
  {
    var s' := Step(s, a);
    assert s.At(a.t).HoldsMutex() <==> s.holder == Held(a.t);
    forall k: nat | k < s'.tickets ensures k in s'.ran || s'.Pending(k) {
      if a.Register? {
        var id := FreshId(s.shots.Keys);
        assert s'.shots[id] == s.tickets;
        if k < s.tickets && k !in s.ran {
          var i :| i in s.shots && s.shots[i] == k;
          assert s'.shots[i] == k;
        }
      } else if k !in s.ran {
        var i :| i in s.shots && s.shots[i] == k;
        assert i in s'.shots ==> s'.shots[i] == k;
      }
    }
  }

  lemma ResultStep(s: State, a: Action)
    requires Inv(s) && Enabled(s, a)
    ensures ResultInv(Step(s, a))
  {
    var s' := Step(s, a);
    if a.Check? && s.called {
      assert s.At(a.t).ticket < s.tickets;
      assert !s.Pending(s.At(a.t).ticket);
    }
    forall t: Tid | s'.At(t).Finished? && s'.At(t).result ensures s'.At(t).ticket in s'.ran {
      assert s.At(t).Finished? && s.At(t).result ==> s.At(t).ticket in s.ran;
    }
  }

  lemma StepInv(s: State, a: Action)
    requires Inv(s) && Enabled(s, a)
    ensures Inv(Step(s, a))
  {
    hide Step, Enabled, MutexInv, FlagInv, TicketInv, OnceInv, DispatchInv, LedgerInv, ResultInv;
    MutexStep(s, a);
    FlagStep(s, a);
    TicketStep(s, a);
    OnceStep(s, a);
    DispatchStep(s, a);
    LedgerStep(s, a);
    ResultStep(s, a);
  }

  /** Every reachable state of every interleaving. */
  lemma {:induction false} RunInv(s: State, run: seq<Action>)
    requires Inv(s) && Feasible(s, run)
    ensures Inv(Run(s, run))
    decreases |run|
  {
    hide Inv, Step, Enabled;
    if run != [] {
      StepInv(s, run[0]);
      RunInv(Step(s, run[0]), run[1..]);
    }
  }

  // ---------------------------------------------------------------- what callers may rely on

  /** From the empty queue on, under any interleaving: no callback runs twice; while no
      dispatch is in progress every registered callback is either still pending or has run,
      not both; and a registration that returned true has had its own callback run. */
  lemma {:induction false} ExactlyOnce(s: State, run: seq<Action>)
    requires s.Initial() && Feasible(s, run)
    ensures var e := Run(s, run);
            && (forall i, j :: 0 <= i < j < |e.ran| ==> e.ran[i] != e.ran[j])
            && (e.Todo() == e.shots.Keys ==> forall k: nat :: k < e.tickets ==> (k in e.ran <==> !e.Pending(k)))
            && (forall t: Tid :: e.At(t).Finished? && e.At(t).result ==> e.At(t).ticket in e.ran)
            && (e.called ==> e.shots == map[])
  {
    hide Run, Feasible;
    InitialInv(s);
    RunInv(s, run);
    var e := Run(s, run);
    if e.Todo() == e.shots.Keys {
      forall k: nat | k < e.tickets ensures k in e.ran <==> !e.Pending(k) {
        if e.Pending(k) {
          var id :| id in e.shots && e.shots[id] == k;
        }
      }
    }
  }

  /** A pending callback keeps its place, whatever else is registered meanwhile, until a
      dispatch ends. */
  lemma {:induction false} PendingUntilDispatch(s: State, run: seq<Action>, id: int)
    requires Feasible(s, run) && id in s.shots
    requires forall i :: 0 <= i < |run| ==> !run[i].FinishCall?
    ensures id in Run(s, run).shots && Run(s, run).shots[id] == s.shots[id]
    decreases |run|
  {
    hide Enabled;
    if run != [] {
      assert FreshId(s.shots.Keys) !in s.shots;
      PendingUntilDispatch(Step(s, run[0]), run[1..], id);
    }
  }

  // ---------------------------------------------------------------- the single flag

  /** The value the last writer of the flag left: a registration clears it, the end of a
      dispatch sets it. */
  function LastWrite(before: bool, run: seq<Action>): bool
    decreases |run|
  {
    if run == [] then before
    else if run[|run| - 1].Register? then false
    else if run[|run| - 1].FinishCall? then true
    else LastWrite(before, run[..|run| - 1])
  }

  lemma {:induction false} SplitRun(s: State, run: seq<Action>, a: Action)
    requires Feasible(s, run + [a])
    ensures Feasible(s, run) && Enabled(Run(s, run), a)
    ensures Run(s, run + [a]) == Step(Run(s, run), a)
    decreases |run|
  {
    hide Step, Enabled;
    if run == [] {
      assert [a][1..] == [];
    } else {
      assert (run + [a])[1..] == run[1..] + [a];
      SplitRun(Step(s, run[0]), run[1..], a);
    }
  }

  lemma {:induction false} FlagIsLastWrite(s: State, run: seq<Action>)
    requires Feasible(s, run)
    ensures Run(s, run).called == LastWrite(s.called, run)
    decreases |run|
  {
    if run != [] {
      var front, last := run[..|run| - 1], run[|run| - 1];
      assert run == front + [last];
      SplitRun(s, front, last);
      FlagIsLastWrite(s, front);
    }
  }

  /** Made exact: a waiter that re-acquires the mutex returns true if and only if no thread
      registered since the end of the last dispatch. */
  lemma {:induction false} WaiterSucceedsIffUndisturbed(s: State, run: seq<Action>, t: Tid)
    requires s.Initial() && Feasible(s, run + [Check(t)])
    ensures Feasible(s, run) && Run(s, run).At(t).Checking?
    ensures Run(s, run + [Check(t)]).At(t) == Finished(Run(s, run).At(t).ticket, true) <==> LastWrite(s.called, run)
  {
    SplitRun(s, run, Check(t));
    FlagIsLastWrite(s, run);
  }

  /** Nobody registers during the run. */
  predicate NoRegistration(run: seq<Action>) {
    forall i :: 0 <= i < |run| ==> !run[i].Register?
  }

  /** Thread `t` starts no new call during the run. */
  predicate NoNewCall(run: seq<Action>, t: Tid) {
    forall i :: 0 <= i < |run| ==> run[i] != LockToAdd(t) && run[i] != LockToCall(t)
  }

  /** What a thread can be after a stretch of run in which it waited for `ticket` and the
      flag stayed up. */
  predicate Released(pc: Pc, ticket: nat) {
    (pc.Waits() && pc.ticket == ticket) || pc == Finished(ticket, true)
  }

  ghost predicate NobodySleeps(s: State) {
    forall t: Tid :: !s.At(t).Sleeping?
  }

  /** The comment's claim under its real condition. From the end of a dispatch on, as long as
      nobody registers, the flag stays up, so that every waiter is either still on its way
      out or has returned true, and nobody goes back to sleep once notify_all is done. */
  lemma {:induction false} WakeUpWindow(s: State, run: seq<Action>)
    requires s.called && Feasible(s, run) && NoRegistration(run)
    ensures Run(s, run).called
    ensures forall t: Tid :: s.At(t).Waits() && NoNewCall(run, t) ==> Released(Run(s, run).At(t), s.At(t).ticket)
    ensures NobodySleeps(s) || (exists i :: 0 <= i < |run| && run[i].Notify?) ==> NobodySleeps(Run(s, run))
    decreases |run|
  {
    if run != [] {
      var front, last := run[..|run| - 1], run[|run| - 1];
      assert run == front + [last];
      SplitRun(s, front, last);
      WakeUpWindow(s, front);
      WindowStep(Run(s, front), last);
    }
  }

  lemma WindowStep(s: State, a: Action)
    requires s.called && Enabled(s, a) && !a.Register?
    ensures Step(s, a).called
    ensures NobodySleeps(s) || a.Notify? ==> NobodySleeps(Step(s, a))
    ensures forall t: Tid, k: nat :: Released(s.At(t), k) && a != LockToAdd(t) && a != LockToCall(t)
                                     ==> Released(Step(s, a).At(t), k)
  {
    var s' := Step(s, a);
    if NobodySleeps(s) || a.Notify? {
      forall t: Tid ensures !s'.At(t).Sleeping? {
        assert NobodySleeps(s) ==> !s.At(t).Sleeping?;
      }
    }
  }

  /** A step in front of a feasible run. */
  lemma Prefix(s: State, a: Action, rest: seq<Action>)
    returns (run: seq<Action>)
    requires Enabled(s, a) && Feasible(Step(s, a), rest)
    ensures run == [a] + rest && Feasible(s, run) && Run(s, run) == Run(Step(s, a), rest)
  {
    run := [a] + rest;
    assert run[1..] == rest;
  }

  /** ... and a waiter that has been woken needs only the mutex to get out with true. */
  lemma WokenWaiterGetsOut(s: State, t: Tid)
    returns (run: seq<Action>)
    requires s.called && s.holder == Free && s.At(t).Waking?
    ensures run == [Relock(t), Check(t)] && Feasible(s, run)
    ensures Run(s, run).At(t) == Finished(s.At(t).ticket, true)
  {
    var s1 := Step(s, Relock(t));
    run := Prefix(s1, Check(t), []);
    run := Prefix(s, Relock(t), run);
  }

  /** Whether or not its callback has run: while the flag is down a sleeping waiter can time
      out, and its call then returns false. */
  lemma SleeperCanTimeOut(s: State, t: Tid)
    returns (run: seq<Action>)
    requires !s.called && s.holder == Free && s.At(t).Sleeping?
    ensures Feasible(s, run) && NoRegistration(run)
    ensures Run(s, run).At(t) == Finished(s.At(t).ticket, false) && Run(s, run).ran == s.ran
  {
    var s1 := Step(s, Wake(t, true));
    var s2 := Step(s1, Relock(t));
    run := Prefix(s2, Check(t), []);
    run := Prefix(s1, Relock(t), run);
    run := Prefix(s, Wake(t, true), run);
  }

  /** Between the end of a dispatch by `d` and the return of the waiter `t`, thread `u`
      registers. The waiter is notified, finds the flag down and goes back to sleep. */
  lemma NewcomerPutsWaiterBackToSleep(s: State, d: Tid, t: Tid, u: Tid)
    returns (run: seq<Action>)
    requires s.holder == Free && s.At(d).Notifying? && s.At(t).Sleeping? && s.At(u).Outside?
    ensures Feasible(s, run)
    ensures var e := Run(s, run);
            !e.called && e.holder == Free && e.At(t) == s.At(t) && e.ran == s.ran
  {
    hide Run, Feasible;
    var s1 := Step(s, LockToAdd(u));
    var s2 := Step(s1, Register(u));
    var s3 := Step(s2, Check(u));
    var s4 := Step(s3, Notify(d));
    var s5 := Step(s4, Relock(t));
    var e := Step(s5, Check(t));
    Nothing(e);
    run := Prefix(s5, Check(t), []);
    run := Prefix(s4, Relock(t), run);
    run := Prefix(s3, Notify(d), run);
    run := Prefix(s2, Check(u), run);
    run := Prefix(s1, Register(u), run);
    run := Prefix(s, LockToAdd(u), run);
  }

  lemma {:induction false} Nothing(s: State)
    ensures Feasible(s, []) && Run(s, []) == s
  {
  }

  lemma {:induction false} Append(s: State, run: seq<Action>, rest: seq<Action>)
    requires Feasible(s, run) && Feasible(Run(s, run), rest)
    ensures Feasible(s, run + rest) && Run(s, run + rest) == Run(Run(s, run), rest)
    decreases |run|
  {
    hide Step, Enabled;
    if run == [] {
      assert run + rest == rest;
    } else {
      assert (run + rest)[1..] == run[1..] + rest;
      Append(Step(s, run[0]), run[1..], rest);
    }
  }

  /** Why the condition is needed. Thread 0 registers and sleeps; thread 1 dispatches, which
      runs the callback of thread 0; thread 2 registers before thread 0 has the mutex back.
      In the end the call of thread 0 returns false although its callback has run. */
  lemma DisturbedWaiterReturnsFalse(s: State)
    returns (run: seq<Action>)
    requires s.Initial()
    ensures Feasible(s, run)
    ensures Run(s, run).At(0) == Finished(0, false) && 0 in Run(s, run).ran
  {
    hide Run, Feasible;
    assert s.shots.Keys == {};
    var s1 := Step(s, LockToAdd(0));
    var s2 := Step(s1, Register(0));
    assert s2.shots == map[0 := 0];
    var s3 := Step(s2, Check(0));
    var s4 := Step(s3, LockToCall(1));
    var s5 := Step(s4, RunShot(1, 0));
    var s6 := Step(s5, FinishCall(1));
    var middle := NewcomerPutsWaiterBackToSleep(s6, 1, 0, 2);
    var end := SleeperCanTimeOut(Run(s6, middle), 0);
    Append(s6, middle, end);
    run := middle + end;
    run := Prefix(s5, FinishCall(1), run);
    run := Prefix(s4, RunShot(1, 0), run);
    run := Prefix(s3, LockToCall(1), run);
    run := Prefix(s2, Check(0), run);
    run := Prefix(s1, Register(0), run);
    run := Prefix(s, LockToAdd(0), run);
  }

  /** A registration that times out takes nothing back: its callback stays pending, and the
      next dispatch still has to run it, after the call has returned. */
  lemma TimedOutShotStaysPending(s: State, t: Tid)
    requires Inv(s) && s.At(t).Checking? && !s.called && s.At(t).timedOut && s.At(t).ticket !in s.ran
    ensures var s' := Step(s, Check(t));
            && s'.At(t) == Finished(s.At(t).ticket, false)
            && s'.Pending(s.At(t).ticket)
            && (exists id :: id in s'.Todo() && id in s'.shots && s'.shots[id] == s.At(t).ticket)
  {
    var k := s.At(t).ticket;
    var s' := Step(s, Check(t));
    assert k < s.tickets && s.Pending(k);
    var id :| id in s.shots && s.shots[id] == k;
    assert s'.shots[id] == k && id in s'.Todo();
  }

  lemma RanGrows(s: State, a: Action, ticket: nat)
    requires Enabled(s, a)
    ensures ticket in s.ran ==> ticket in Step(s, a).ran
  {
  }

  /** Whatever the threads do: the first dispatch that ends behind a registration has run its
      callback, also if the call that registered it has long returned false. */
  lemma {:induction false} RegisteredRunsInDispatch(s: State, run: seq<Action>, ticket: nat)
    requires Inv(s) && Feasible(s, run) && ticket < s.tickets
    requires exists i :: 0 <= i < |run| && run[i].FinishCall?
    ensures ticket in Run(s, run).ran
    decreases |run|
  {
    hide Step, Enabled, Inv;
    var s' := Step(s, run[0]);
    StepInv(s, run[0]);
    if run[0].FinishCall? {
      RanAtFinish(s, run[0], ticket);
      StaysRun(s', run[1..], ticket);
    } else {
      var i :| 0 <= i < |run| && run[i].FinishCall?;
      assert run[1..][i - 1].FinishCall?;
      TicketsGrow(s, run[0]);
      RegisteredRunsInDispatch(s', run[1..], ticket);
    }
  }

  lemma TicketsGrow(s: State, a: Action)
    requires Enabled(s, a)
    ensures s.tickets <= Step(s, a).tickets
  {
  }

  lemma RanAtFinish(s: State, a: Action, ticket: nat)
    requires Inv(s) && Enabled(s, a) && a.FinishCall? && ticket < s.tickets
    ensures ticket in Step(s, a).ran
  {
    LedgerStep(s, a);
    assert !Step(s, a).Pending(ticket);
  }

  lemma {:induction false} StaysRun(s: State, run: seq<Action>, ticket: nat)
    requires Feasible(s, run) && ticket in s.ran
    ensures ticket in Run(s, run).ran
    decreases |run|
  {
    hide Step, Enabled;
    if run != [] {
      RanGrows(s, run[0], ticket);
      StaysRun(Step(s, run[0]), run[1..], ticket);
    }
  }

  /** A registration returns false only to a thread that has timed out since it registered;
      being notified or woken for no reason is never enough. */
  lemma {:induction false} FalseOnlyAfterTimeout(s: State, run: seq<Action>, t: Tid)
    returns (i: nat)
    requires s.Initial() && Feasible(s, run)
    requires var pc := Run(s, run).At(t);
             (pc.Finished? && !pc.result) || ((pc.Checking? || pc.Waking?) && pc.timedOut)
    ensures i < |run| && run[i] == Wake(t, true)
    ensures forall j :: i < j < |run| ==> run[j] != Register(t)
    decreases |run|
  {
    var front, last := run[..|run| - 1], run[|run| - 1];
    assert run == front + [last];
    SplitRun(s, front, last);
    if last == Wake(t, true) {
      return |run| - 1;
    }
    TimeoutBefore(Run(s, front), last, t);
    i := FalseOnlyAfterTimeout(s, front, t);
    assert forall j :: i < j < |front| ==> run[j] == front[j];
  }

  lemma TimeoutBefore(s: State, a: Action, t: Tid)
    requires Enabled(s, a) && a != Wake(t, true)
    requires var pc := Step(s, a).At(t);
             (pc.Finished? && !pc.result) || ((pc.Checking? || pc.Waking?) && pc.timedOut)
    ensures var pc := s.At(t);
            (pc.Finished? && !pc.result) || ((pc.Checking? || pc.Waking?) && pc.timedOut)
    ensures a != Register(t)
  {
  }
}
