/**
 * The manual-reset event between a capture worker and whoever sets it up or asks it to exit: any number of setters
 * store a flag and then set the event, while the worker resets, looks at the flags and waits.
 */
module WorkerEvent {

  type Tid = nat

  /** Where the worker stands in `wait_for_setup`; each step is one atomic access. */
  datatype Worker =
    | LoopExit      // about to load the exit flag for the loop condition
    | LoopSetup     // about to load the setup flag for it
    | Resetting     // about to clear the event
    | LookExit      // about to load the exit flag again
    | LookSetup     // about to load the setup flag again
    | Testing       // in `wait`, about to lock and look at the event
    | Blocked       // in `wait`, asleep on the condition variable
    | Leaving       // about to load the exit flag for the result
    | Returned(result: bool)

  /** What the event is set for; a start, stop or flush sets neither flag. */
  datatype Flag = Exit | Setup | Other

  /** A setter stores its flag, then sets the event under its mutex, then notifies. */
  datatype Setter = Resting | Stored(flag: Flag) | Signaled

  datatype State = State(exit: bool, setup: bool, signaled: bool, worker: Worker, setters: map<Tid, Setter>)

  predicate IsSet(s: State, flag: Flag) {
    match flag
    case Exit => s.exit
    case Setup => s.setup
    case Other => true
  }

  ghost predicate StoreFlag(s: State, s': State, t: Tid, flag: Flag) {
    && t in s.setters && s.setters[t].Resting?
    && s' == s.(exit := s.exit || flag.Exit?, setup := s.setup || flag.Setup?, setters := s.setters[t := Stored(flag)])
  }

  ghost predicate Signal(s: State, s': State, t: Tid) {
    && t in s.setters && s.setters[t].Stored?
    && s' == s.(signaled := true, setters := s.setters[t := Signaled])
  }

  /** A worker asleep wakes up and looks at the event again. */
  ghost predicate Notify(s: State, s': State, t: Tid) {
    && t in s.setters && s.setters[t].Signaled?
    && s' == s.(worker := if s.worker.Blocked? then Testing else s.worker, setters := s.setters[t := Resting])
  }

  /** What the worker does next; asleep it can wake up without cause, and returned it does nothing. */
  function WorkerNext(s: State): Worker {
    match s.worker
    case LoopExit => if s.exit then Leaving else LoopSetup
    case LoopSetup => if s.setup then Leaving else Resetting
    case Resetting => LookExit
    case LookExit => if s.exit then Leaving else LookSetup
    case LookSetup => if s.setup then Leaving else Testing
    case Testing => if s.signaled then LoopExit else Blocked
    case Blocked => Testing
    case Leaving => Returned(!s.exit)
    case Returned(_) => s.worker
  }

  ghost predicate Work(s: State, s': State) {
    s' == s.(worker := WorkerNext(s), signaled := s.signaled && !s.worker.Resetting?)
  }

  ghost predicate Next(s: State, s': State) {
    || Work(s, s')
    || (exists t, flag :: StoreFlag(s, s', t, flag))
    || (exists t :: Signal(s, s', t))
    || (exists t :: Notify(s, s', t))
  }

  ghost predicate Init(s: State) {
    && !s.exit && !s.setup && !s.signaled && s.worker == LoopExit
    && forall t :: t in s.setters ==> s.setters[t] == Resting
  }

  // ---- What every step keeps ----

  ghost predicate AboutToSet(s: State, flag: Flag) {
    exists t :: t in s.setters && s.setters[t] == Stored(flag)
  }

  ghost predicate AboutToNotify(s: State) {
    exists t :: t in s.setters && s.setters[t] == Signaled
  }

  /** A flag the worker has looked at and found unset, but which is set, will set the event, or has. */
  predicate Missed(s: State, flag: Flag) {
    && !flag.Other? && IsSet(s, flag)
    && (s.worker.Testing? || s.worker.Blocked? || (flag.Exit? && s.worker.LookSetup?))
  }

  ghost predicate Inv(s: State) {
    && (forall flag :: Missed(s, flag) && !s.signaled ==> AboutToSet(s, flag))
    && (s.worker.Blocked? && s.signaled ==> AboutToNotify(s))
    && (s.worker.Leaving? ==> s.exit || s.setup)
    && (s.worker.Returned? ==> if s.worker.result then s.setup else s.exit)
    && (forall t :: t in s.setters && s.setters[t].Stored? ==> IsSet(s, s.setters[t].flag))
  }

  lemma StoreFlagKeeps(s: State, s': State, t: Tid, flag: Flag)
    requires Inv(s) && StoreFlag(s, s', t, flag)
    ensures Inv(s')
  {
    forall f | Missed(s', f) && !s'.signaled
      ensures AboutToSet(s', f)
    {
      if f == flag {
        assert s'.setters[t] == Stored(f);
      } else {
        assert Missed(s, f);
        var u :| u in s.setters && s.setters[u] == Stored(f);
        assert s'.setters[u] == Stored(f);
      }
    }
    if s'.worker.Blocked? && s'.signaled {
      var u :| u in s.setters && s.setters[u] == Signaled;
      assert s'.setters[u] == Signaled;
    }
  }

  lemma SignalKeeps(s: State, s': State, t: Tid)
    requires Inv(s) && Signal(s, s', t)
    ensures Inv(s')
  {
    assert s'.setters[t] == Signaled;
  }

  lemma NotifyKeeps(s: State, s': State, t: Tid)
    requires Inv(s) && Notify(s, s', t)
    ensures Inv(s')
  {
    forall f | Missed(s', f) && !s'.signaled
      ensures AboutToSet(s', f)
    {
      assert Missed(s, f);
      var u :| u in s.setters && s.setters[u] == Stored(f);
      assert s'.setters[u] == Stored(f);
    }
  }

  lemma WorkKeeps(s: State, s': State)
    requires Inv(s) && Work(s, s')
    ensures Inv(s')
  {
    assert forall f :: AboutToSet(s, f) ==> AboutToSet(s', f);
    assert forall f :: Missed(s', f) ==> Missed(s, f);
  }

  lemma NextKeeps(s: State, s': State)
    requires Inv(s) && Next(s, s')
    ensures Inv(s')
  {
    hide Inv, Work, StoreFlag, Signal, Notify;
    if Work(s, s') {
      WorkKeeps(s, s');
    } else if t, flag :| StoreFlag(s, s', t, flag) {
      StoreFlagKeeps(s, s', t, flag);
    } else if t :| Signal(s, s', t) {
      SignalKeeps(s, s', t);
    } else {
      var t :| Notify(s, s', t);
      NotifyKeeps(s, s', t);
    }
  }

  ghost predicate Run(states: seq<State>) {
    && states != [] && Init(states[0])
    && forall i, j :: 0 <= i < |states| && j == i + 1 && j < |states| ==> Next(states[i], states[j])
  }

  lemma {:induction false} RunInv(states: seq<State>, n: nat)
    requires Run(states) && n < |states|
    ensures Inv(states[n])
    decreases n
  {
    hide Next, Inv;
    if n == 0 {
      InitKeeps(states[0]);
    } else {
      RunInv(states, n - 1);
      NextKeeps(states[n - 1], states[n]);
    }
  }

  lemma InitKeeps(s: State)
    requires Init(s)
    ensures Inv(s)
  {
  }

  // ---- No wakeup is lost ----

  /**
   * A worker asleep while a flag is set will be woken: if the event is not signaled yet, the setter of that flag
   * has still to do it; and if it is, some setter has still to notify.
   */
  lemma NoLostWakeup(states: seq<State>, n: nat, flag: Flag)
    requires Run(states) && n < |states| && states[n].worker.Blocked?
    requires !flag.Other? && IsSet(states[n], flag)
    ensures if states[n].signaled then AboutToNotify(states[n]) else AboutToSet(states[n], flag)
  {
    RunInv(states, n);
    assert Missed(states[n], flag);
  }

  ghost predicate Rested(s: State) {
    forall t :: t in s.setters ==> s.setters[t] == Resting
  }

  /** How many steps of its own the worker still needs once a flag is set and no setter is on its way. */
  function StepsLeft(s: State): nat {
    match s.worker
    case Returned(_) => 0
    case Leaving => 1
    case LoopExit => if s.exit then 2 else 3
    case LookExit => if s.exit then 2 else 3
    case LoopSetup => if s.setup then 2 else 5
    case LookSetup => if s.setup then 2 else 6
    case Resetting => 4
    case Testing => 5
    case Blocked => 7
  }

  /**
   * So once a flag is set and every setter is done, the worker is awake, and each of its steps brings it nearer to
   * its return.
   */
  lemma WorkerReturns(states: seq<State>, n: nat, s': State)
    requires Run(states) && n < |states| && Rested(states[n]) && (states[n].exit || states[n].setup)
    requires Work(states[n], s') && !states[n].worker.Returned?
    ensures !states[n].worker.Blocked? && StepsLeft(s') < StepsLeft(states[n]) <= 6
    ensures Rested(s') && (s'.exit || s'.setup)
  {
    RunInv(states, n);
    var s := states[n];
    assert forall flag :: !AboutToSet(s, flag);
    assert !AboutToNotify(s);
    assert Missed(s, Exit) || Missed(s, Setup) ==> s.signaled;
  }

  /** How many steps of its own the worker still needs to fall asleep while no flag is set and no setter on its way. */
  function StepsToSleep(s: State): nat {
    match s.worker
    case Blocked => 0
    case Testing => if s.signaled then 7 else 1
    case LookSetup => if s.signaled then 8 else 2
    case LookExit => if s.signaled then 9 else 3
    case Resetting => 4
    case LoopSetup => 5
    case LoopExit => 6
    case Leaving => 0
    case Returned(_) => 0
  }

  /**
   * And while neither flag is set and every setter is done, the worker does not return, and each of its steps brings it
   * nearer to falling asleep, whatever the event was set for before.
   */
  lemma WorkerSleeps(states: seq<State>, n: nat, s': State)
    requires Run(states) && n < |states| && Rested(states[n]) && !states[n].exit && !states[n].setup
    requires Work(states[n], s') && !states[n].worker.Blocked?
    ensures !states[n].worker.Leaving? && !states[n].worker.Returned?
    ensures StepsToSleep(s') < StepsToSleep(states[n]) <= 9
    ensures Rested(s') && !s'.exit && !s'.setup && (StepsToSleep(s') == 0 ==> s'.worker.Blocked?)
  {
    RunInv(states, n);
  }

  /** The worker goes on only if it was set up, and gives up only if it was asked to exit. */
  lemma ResultIsRight(states: seq<State>, n: nat)
    requires Run(states) && n < |states| && states[n].worker.Returned?
    ensures if states[n].worker.result then states[n].setup else states[n].exit
  {
    RunInv(states, n);
  }

  // ---- Which flag decides ----

  lemma ExitStays(s: State, s': State)
    requires Next(s, s') && s.exit
    ensures s'.exit
  {
  }

  lemma {:induction false} ExitStaysSet(states: seq<State>, i: nat, n: nat)
    requires Run(states) && i <= n < |states| && states[i].exit
    ensures states[n].exit
    decreases n
  {
    hide Next;
    if i == n {
    } else {
      ExitStaysSet(states, i, n - 1);
      ExitStays(states[n - 1], states[n]);
    }
  }

  lemma ReturnStep(s: State, s': State)
    requires Next(s, s') && s'.worker.Returned?
    ensures s'.worker == s.worker || (s.worker.Leaving? && s'.worker == Returned(!s.exit))
  {
  }

  /**
   * When both flags are set, exit wins: the result is what the last look at the exit flag found, and it is true only if
   * exit was not set at that look, nor at any time before.
   */
  lemma {:induction false} LastLookDecides(states: seq<State>, n: nat) returns (k: nat)
    requires Run(states) && n < |states| && states[n].worker.Returned?
    ensures k < n && states[k].worker.Leaving? && states[k + 1].worker == states[n].worker
    ensures states[n].worker.result <==> !states[k].exit
    ensures states[n].worker.result ==> forall i :: 0 <= i <= k ==> !states[i].exit
    decreases n
  {
    hide Next;
    k := 0;
    if n == 0 {
    } else {
      ReturnStep(states[n - 1], states[n]);
      if states[n - 1].worker.Returned? {
        k := LastLookDecides(states, n - 1);
      } else {
        k := n - 1;
        forall i | 0 <= i <= k && states[i].exit
          ensures states[k].exit
        {
          ExitStaysSet(states, i, k);
        }
      }
    }
  }

  /** A setter on its way can go on: it sets the event, and then wakes a worker that is asleep. */
  lemma SetterGoesOn(s: State, t: Tid) returns (s': State)
    requires t in s.setters && !s.setters[t].Resting?
    ensures Next(s, s')
    ensures s.setters[t].Stored? ==> s'.signaled && s'.setters[t] == Signaled
    ensures s.setters[t].Signaled? ==> !s'.worker.Blocked? && s'.setters[t] == Resting && s'.signaled == s.signaled
  {
    if s.setters[t].Stored? {
      s' := s.(signaled := true, setters := s.setters[t := Signaled]);
      assert Signal(s, s', t);
    } else {
      s' := s.(worker := if s.worker.Blocked? then Testing else s.worker, setters := s.setters[t := Resting]);
      assert Notify(s, s', t);
    }
  }

  /** A setter at rest can set the event for anything. */
  lemma FlagCanBeSet(s: State, t: Tid, flag: Flag) returns (s': State)
    requires t in s.setters && s.setters[t].Resting?
    ensures Next(s, s') && IsSet(s', flag) && s'.setters[t] == Stored(flag)
    ensures s.exit ==> s'.exit
    ensures s.setup ==> s'.setup
  {
    s' := s.(exit := s.exit || flag.Exit?, setup := s.setup || flag.Setup?, setters := s.setters[t := Stored(flag)]);
    assert StoreFlag(s, s', t, flag);
  }

  /** The worker can always go on. */
  lemma WorkerGoesOn(s: State) returns (s': State)
    ensures Work(s, s') && Next(s, s')
  {
    s' := s.(worker := WorkerNext(s), signaled := s.signaled && !s.worker.Resetting?);
  }

  ghost predicate Stores(s: State, s': State) {
    exists t, flag :: StoreFlag(s, s', t, flag)
  }

  /** The event is set for a reason: as long as nobody has stored a flag, it is not set and no setter is on its way. */
  lemma {:induction false} NothingWithoutCause(states: seq<State>, n: nat)
    requires Run(states) && n < |states|
    requires forall i, j :: 0 <= i < n && j == i + 1 ==> !Stores(states[i], states[j])
    ensures Rested(states[n]) && !states[n].signaled && !states[n].exit && !states[n].setup
    decreases n
  {
    hide Stores, Work;
    if n == 0 {
    } else {
      NothingWithoutCause(states, n - 1);
      assert Next(states[n - 1], states[n]) && !Stores(states[n - 1], states[n]);
      StaysQuiet(states[n - 1], states[n]);
    }
  }

  lemma StaysQuiet(s: State, s': State)
    requires Next(s, s') && !Stores(s, s') && Rested(s) && !s.signaled && !s.exit && !s.setup
    ensures Rested(s') && !s'.signaled && !s'.exit && !s'.setup
  {
    if t, flag :| StoreFlag(s, s', t, flag) {
      assert false;
    }
  }
}
