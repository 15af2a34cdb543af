/** What the pool promises over whole runs: draining, exactly-once invocation, no lost wake-up at
    shutdown, bounded shutdown, and what the counters mean. */
module PoolTheorems {
  import opened Sums
  import opened PoolModel
  import opened PoolInvariant

  // ---- exactly once ---------------------------------------------------------------------------

  /** In every reachable state tasks leave the queue in the order they entered it, and no task is
      invoked twice or without having been accepted. */
  lemma FirstInFirstOut(k: Config, s: State)
    requires Reachable(k, s)
    ensures s.accepted == s.removed + s.discarded + s.queue
    ensures forall t :: multiset(s.invoked)[t] <= multiset(s.accepted)[t] <= 1
  {
    hide LedgerInv;
    ReachableInv(k, s);
    LedgerCounts(s);
  }

  lemma LedgerCounts(s: State)
    requires LedgerInv(s)
    ensures s.accepted == s.removed + s.discarded + s.queue
    ensures forall t :: multiset(s.invoked)[t] <= multiset(s.accepted)[t] <= 1
  {
    hide Collect;
    DistinctCounts(s.accepted);
    assert multiset(s.accepted) == multiset(s.removed) + multiset(s.discarded) + multiset(s.queue);
  }

  lemma {:induction false} DistinctCounts(s: seq<TaskId>)
    requires Distinct(s)
    ensures forall t :: multiset(s)[t] <= 1
  {
    if s != [] {
      var n := |s| - 1;
      DistinctCounts(s[..n]);
      assert s == s[..n] + [s[n]];
      assert s[n] !in s[..n];
    }
  }

  /** When stop() has joined, and so when it has returned, every task whose submit succeeded has been
      invoked exactly once, and the clean-up loop has nothing to discard. */
  lemma StopDrains(k: Config, s: State)
    requires k.initThreads >= 1 && Reachable(k, s) && (s.stopper.Joined? || s.stopper.Returned?)
    ensures s.queue == [] && s.discarded == [] && s.removed == s.accepted
    ensures multiset(s.invoked) == multiset(s.accepted)
    ensures forall t: TaskId | t < |s.calls| :: multiset(s.invoked)[t] == if WasPushed(s.calls[t]) then 1 else 0
  {
    ReachableInv(k, s);
    JoinedMeansClosed(k, s);
    NoneHeld(s.workers, |s.workers|);
    assert s.removed + s.discarded + s.queue == s.removed;
    DistinctCounts(s.accepted);
  }

  /** A step taken from a reachable state leads to a reachable one. */
  lemma Reach(k: Config, s: State, step: Step, next: State)
    requires Reachable(k, s) && Enabled(k, s, step) && Apply(k, s, step) == next
    ensures Reachable(k, next)
  {
    hide Enabled, Apply;
    var steps :| CanRun(k, INITIAL, steps) && After(k, INITIAL, steps) == s;
    assert (steps + [step])[..|steps|] == steps;
    assert CanRun(k, INITIAL, steps + [step]) && After(k, INITIAL, steps + [step]) == next;
  }

  /** One task accepted by a pool without threads. */
  function Stranded(stopper: StopPc, running: bool, lock: Owner): State
  {
    INITIAL.(running := running, lock := lock, queue := [0], taskSize := 1, calls := [Call(false, false, CAccepted)],
             starter := Launching(0), stopper := stopper, accepted := [0])
  }

  /** Its submit call, past the entry test. */
  function Submitting(pc: CallPc, lock: Owner): State
  {
    INITIAL.(running := true, starter := Launching(0), lock := lock, calls := [Call(false, false, pc)])
  }

  lemma StrandedBegin(k: Config)
    requires Discards(k)
    ensures Reachable(k, Submitting(CWanting(false), Free))
  {
    assert CanRun(k, INITIAL, []) && After(k, INITIAL, []) == INITIAL;
    hide Reachable;
    var started := INITIAL.(running := true, starter := Launching(0));
    Reach(k, INITIAL, Main(SetRunning), started);
    Reach(k, started, Main(Begin(false)), Submitting(CWanting(false), Free));
  }

  lemma StrandedTask(k: Config)
    requires Discards(k)
    ensures Reachable(k, Stranded(NotCalled, true, Free))
  {
    hide Reachable;
    StrandedBegin(k);
    var pushed := Stranded(NotCalled, true, Free).(calls := [Call(false, false, CSignalling)]);
    Reach(k, Submitting(CWanting(false), Free), Submit(0, CallAcquire), Submitting(CChecking(false), ByCall(0)));
    Reach(k, Submitting(CChecking(false), ByCall(0)), Submit(0, CallTest), Submitting(CPassed, ByCall(0)));
    Reach(k, Submitting(CPassed, ByCall(0)), Submit(0, Admit), Submitting(CAdmitted, ByCall(0)));
    Reach(k, Submitting(CAdmitted, ByCall(0)), Submit(0, Push), pushed);
    Reach(k, pushed, Submit(0, Signal(None)), Stranded(NotCalled, true, Free));
  }

  lemma StrandedStop(k: Config)
    requires Discards(k)
    ensures var s := Stranded(Returned, false, Free).(queue := [], taskSize := 0, discarded := [0]); Reachable(k, s)
  {
    hide Reachable;
    StrandedTask(k);
    Reach(k, Stranded(NotCalled, true, Free), Main(Flip), Stranded(Flipped, false, Free));
    Reach(k, Stranded(Flipped, false, Free), Main(Fence), Stranded(Fencing, false, ByStop));
    Reach(k, Stranded(Fencing, false, ByStop), Main(Unfence), Stranded(Fenced, false, Free));
    Reach(k, Stranded(Fenced, false, Free), Main(NotifyWorkers), Stranded(SignalledWorkers, false, Free));
    Reach(k, Stranded(SignalledWorkers, false, Free), Main(NotifyCalls), Stranded(SignalledCalls, false, Free));
    Reach(k, Stranded(SignalledCalls, false, Free), Main(Join), Stranded(Joined, false, Free));
    Reach(k, Stranded(Joined, false, Free), Main(Clear),
          Stranded(Returned, false, Free).(queue := [], taskSize := 0, discarded := [0]));
  }

  /** The clean-up loop of stop() never discards a task exactly when the pool has an initial thread or
      accepts nothing. */
  lemma DrainsExactly(k: Config)
    ensures (forall s | Reachable(k, s) :: s.discarded == []) <==> k.initThreads >= 1 || k.maxQueue == 0
  {
    if Discards(k) {
      StrandedStop(k);
    } else {
      forall s | Reachable(k, s) ensures s.discarded == [] {
        ReachableInv(k, s);
      }
    }
  }

  lemma {:induction false} NoneHeld(workers: seq<WorkerPc>, n: nat)
    requires n <= |workers| && AllFinished(workers)
    ensures CollectTo(workers, n, HeldTask) == multiset{}
  {
    if n > 0 {
      NoneHeld(workers, n - 1);
    }
  }

  /** Once any worker has left through the shutdown test, no submit succeeds again. */
  lemma {:induction false} NoAcceptAfterExit(k: Config, s: State, more: seq<Step>)
    requires Reachable(k, s) && CanRun(k, s, more)
    requires SomeExited(s.workers)
    ensures SomeExited(After(k, s, more).workers) && After(k, s, more).accepted == s.accepted
  {
    ReachableInv(k, s);
    ClosedStays(k, s, more);
  }

  lemma {:induction false} ClosedStays(k: Config, s: State, more: seq<Step>)
    requires Inv(k, s) && CanRun(k, s, more) && SomeExited(s.workers)
    ensures SomeExited(After(k, s, more).workers) && After(k, s, more).accepted == s.accepted
  {
    if more != [] {
      var n := |more| - 1;
      var t := After(k, s, more[..n]);
      ClosedStays(k, s, more[..n]);
      KeptAlong(k, s, more[..n]);
      var w: nat :| w < |t.workers| && t.workers[w].Exited?;
      ExitStays(k, t, more[n], w);
    }
  }

  lemma ExitStays(k: Config, s: State, step: Step, w: nat)
    requires Closed(s.running, s.queue, s.calls) && Enabled(k, s, step)
    requires w < |s.workers| && s.workers[w].Exited?
    ensures var s' := Apply(k, s, step); w < |s'.workers| && s'.workers[w].Exited? && s'.accepted == s.accepted
  {
    match step
    case Thread(v, act) => ExitStaysThread(k, s, v, act, w);
    case _ =>
  }

  lemma ExitStaysThread(k: Config, s: State, v: nat, act: Act, w: nat)
    requires WorkerEnabled(k, s, v, act) && w < |s.workers| && s.workers[w].Exited?
    ensures var s' := WorkerEffect(k, s, v, act); w < |s'.workers| && s'.workers[w].Exited? && s'.accepted == s.accepted
  {}

  // ---- signal accounting ----------------------------------------------------------------------

  /** No reachable state owes a wake-up: if a worker sleeps, the queued tasks are covered by signals
      still to be sent and by workers about to look; while running, if a submitter sleeps, the queue
      plus the submitters woken and about to look fill the threshold. */
  lemma SignalAccounting(k: Config, s: State)
    requires Reachable(k, s)
    ensures s.taskSize == |s.queue| <= k.maxQueue
    ensures !NoSleeper(s.workers) ==> |s.queue| <= Sum(s.calls, OwesSignal) + Sum(s.workers, WillLook)
    ensures s.running && !NoCallSleeper(s.calls) ==> k.maxQueue <= |s.queue| + Sum(s.calls, WillTry)
  {
    ReachableInv(k, s);
    if w: nat :| w < |s.workers| && s.workers[w].Asleep? {
      SumGap(s.workers, |s.workers|, Nothing, IsSleeping, w);
      SumZero(s.workers, |s.workers|, Nothing);
    }
    if c: nat :| c < |s.calls| && s.calls[c].pc.CAsleep? {
      SumGap(s.calls, |s.calls|, Nothing, CallSleeping, c);
      SumZero(s.calls, |s.calls|, Nothing);
    }
  }

  function Nothing<T>(x: T): int { 0 }

  // ---- shutdown -------------------------------------------------------------------------------

  /** After the fence and notify_all no worker sleeps or can sleep again, no submit succeeds and the
      queue only shrinks; after the second notify_all no submitter sleeps either. */
  lemma NoLostWakeup(k: Config, s: State, more: seq<Step>)
    requires Reachable(k, s) && CanRun(k, s, more)
    requires WorkersSignalled(s)
    ensures var t := After(k, s, more);
      && NoSleeper(t.workers) && NoStaleWorker(t.workers)
      && (CallsSignalled(s) ==> NoCallSleeper(t.calls) && NoStaleCall(t.calls))
      && |t.queue| <= |s.queue| && t.accepted == s.accepted
  {
    ReachableInv(k, s);
    SignalledAlong(k, s, more);
    KeptAlong(k, s, more);
  }

  lemma {:induction false} SignalledAlong(k: Config, s: State, more: seq<Step>)
    requires Inv(k, s) && CanRun(k, s, more) && WorkersSignalled(s)
    ensures var t := After(k, s, more);
      && WorkersSignalled(t) && (CallsSignalled(s) ==> CallsSignalled(t))
      && |t.queue| <= |s.queue| && t.accepted == s.accepted
  {
    if more != [] {
      var n := |more| - 1;
      SignalledAlong(k, s, more[..n]);
      KeptAlong(k, s, more[..n]);
      SignalledStays(k, After(k, s, more[..n]), more[n]);
    }
  }

  lemma SignalledStays(k: Config, s: State, step: Step)
    requires WorkersSignalled(s) && NoStaleCall(s.calls) && Enabled(k, s, step)
    ensures var s' := Apply(k, s, step);
      && WorkersSignalled(s') && (CallsSignalled(s) ==> CallsSignalled(s'))
      && |s'.queue| <= |s.queue| && s'.accepted == s.accepted
  {}

  /** How much a worker can still do once it can no longer sleep. */
  function Weight(pc: WorkerPc): int
  {
    match pc
    case Holding(_) => 12
    case Running(_) => 11
    case GuardIdle => 10
    case GuardQueue => 9
    case GuardCount => 8
    case Enrolling => 4
    case Wanting(_) => 3
    case Checking(_) => 2
    case Passed => 1
    case _ => 0
  }

  function CallWeight(call: Call): int
  {
    match call.pc
    case CAsleep => 4
    case CWanting(_) => 3
    case CChecking(_) => 2
    case CPassed => 1
    case CSignalling => 1
    case _ => 0
  }

  /** Queued tasks, busy threads and live threads, plus the submit calls still in flight. */
  function Measure(s: State): int
  {
    12 * |s.queue| + Sum(s.workers, Weight) + Sum(s.calls, CallWeight)
  }

  lemma MeasureBounded(s: State)
    ensures 0 <= Measure(s)
  {
    SumNonNegative(s.workers, |s.workers|, Weight);
    SumNonNegative(s.calls, |s.calls|, CallWeight);
  }

  lemma PopDecreases(s: State, w: nat, woken: Option<nat>)
    requires !s.running && w < |s.workers| && s.workers[w].Passed? && WakesCall(s, woken)
    ensures Measure(ProceedEffect(s, w, woken)) < Measure(s)
  {
    var s' := ProceedEffect(s, w, woken);
    SumUpdate(s.workers, w, s'.workers[w], Weight);
    if woken.Some? {
      SumUpdate(s.calls, woken.value, s.calls[woken.value].(pc := CWanting(false)), CallWeight);
    }
  }

  lemma GrowDecreases(s: State, w: nat)
    requires w < |s.workers| && s.workers[w].GuardCount?
    ensures Measure(Spawn(Move(s, w, Enrolling))) < Measure(s)
  {
    SumUpdate(s.workers, w, Enrolling, Weight);
    SumAppend(s.workers[w := Enrolling], Wanting(false), Weight);
  }

  lemma WorkerDecreases(k: Config, s: State, w: nat, act: Act)
    requires !s.running && NoStaleWorker(s.workers) && NoSleeper(s.workers) && WorkerEnabled(k, s, w, act)
    ensures Measure(WorkerEffect(k, s, w, act)) < Measure(s)
  {
    if act.Proceed? {
      PopDecreases(s, w, act.woken);
    } else if act.ReadCount? && s.cur < k.maxThreads {
      GrowDecreases(s, w);
    } else {
      SumUpdate(s.workers, w, WorkerEffect(k, s, w, act).workers[w], Weight);
    }
  }

  lemma CallDecreases(k: Config, s: State, c: nat, op: CallAct)
    requires !s.running && NoStaleCall(s.calls) && NoSleeper(s.workers) && CallEnabled(s, c, op)
    ensures Measure(CallEffect(k, s, c, op)) < Measure(s)
  {
    SumUpdate(s.calls, c, CallEffect(k, s, c, op).calls[c], CallWeight);
  }

  lemma RestKeeps(k: Config, s: State, cmd: MainAct)
    requires !s.running && WorkersSignalled(s) && s.starter == Launching(k.initThreads) && MainEnabled(k, s, cmd)
    ensures Measure(MainEffect(k, s, cmd)) <= Measure(s)
  {
    var s' := MainEffect(k, s, cmd);
    if cmd.Begin? {
      SumAppend(s.calls, s'.calls[|s.calls|], CallWeight);
    } else if cmd.NotifyCalls? {
      RouseLightens(s.calls, s'.calls, |s.calls|);
    }
  }

  lemma {:induction false} RouseLightens(before: seq<Call>, after: seq<Call>, n: nat)
    requires n <= |before| == |after|
    requires forall i | 0 <= i < n :: CallWeight(after[i]) <= CallWeight(before[i])
    ensures SumTo(after, n, CallWeight) <= SumTo(before, n, CallWeight)
  {
    if n > 0 {
      RouseLightens(before, after, n - 1);
    }
  }

  /** One for a step of a worker thread or of a submit call already begun. */
  function Acts(step: Step): nat { if step.Main? then 0 else 1 }

  lemma StepPays(k: Config, s: State, step: Step)
    requires Inv(k, s) && WorkersSignalled(s) && Enabled(k, s, step)
    ensures Measure(Apply(k, s, step)) + Acts(step) <= Measure(s)
  {
    match step
    case Thread(w, act) => WorkerDecreases(k, s, w, act);
    case Submit(c, op) => CallDecreases(k, s, c, op);
    case Main(cmd) => RestKeeps(k, s, cmd);
  }

  function Actions(steps: seq<Step>): nat
  {
    if steps == [] then 0 else Actions(steps[..|steps| - 1]) + Acts(steps[|steps| - 1])
  }

  /** Shutdown is bounded: from the notify_all on, threads and pending calls together take at most
      as many steps as the measure there, whatever else happens in between. */
  lemma ShutdownBounded(k: Config, s: State, more: seq<Step>)
    requires Reachable(k, s) && CanRun(k, s, more) && WorkersSignalled(s)
    ensures 0 <= Measure(After(k, s, more)) <= Measure(s) - Actions(more)
  {
    ReachableInv(k, s);
    PaysAlong(k, s, more);
    MeasureBounded(After(k, s, more));
  }

  lemma {:induction false} PaysAlong(k: Config, s: State, more: seq<Step>)
    requires Inv(k, s) && CanRun(k, s, more) && WorkersSignalled(s)
    ensures Measure(After(k, s, more)) + Actions(more) <= Measure(s)
  {
    if more != [] {
      var n := |more| - 1;
      PaysAlong(k, s, more[..n]);
      KeptAlong(k, s, more[..n]);
      SignalledAlong(k, s, more[..n]);
      StepPays(k, After(k, s, more[..n]), more[n]);
    }
  }

  /** And it is never stuck: while some thread has not finished, a thread or the call holding the
      mutex can move, so join() cannot wait for ever. */
  lemma ShutdownProgress(k: Config, s: State) returns (step: Step)
    requires Reachable(k, s) && WorkersSignalled(s) && !AllFinished(s.workers)
    ensures !step.Main? && Enabled(k, s, step)
  {
    ReachableInv(k, s);
    var w: nat :| w < |s.workers| && !Finished(s.workers[w]);
    step := Thread(w, Acquire);
    match s.lock {
      case ByCall(c) =>
        assert CallHoldsLock(s.calls[c]);
        step := Submit(c, if s.calls[c].pc.CChecking? then CallTest else Admit);
      case ByWorker(v) =>
        assert HoldsLock(s.workers[v]);
        var woken := AnyCallSleeper(s);
        step := Thread(v, if s.workers[v].Checking? then Test else Proceed(woken));
      case Free =>
        assert !HoldsLock(s.workers[w]);
        step := Thread(w, match s.workers[w]
          case Holding(_) => Invoke
          case Running(_) => Finish
          case GuardIdle => ReadIdle
          case GuardQueue => ReadQueue
          case GuardCount => ReadCount
          case Enrolling => Enrol
          case _ => Acquire);
    }
  }

  /** Whoever holds the mutex can move. */
  lemma HolderMoves(k: Config, s: State) returns (step: Step)
    requires LockInv(s) && (s.lock.ByWorker? || s.lock.ByCall?)
    ensures !step.Main? && Enabled(k, s, step)
  {
    match s.lock {
      case ByCall(c) =>
        assert CallHoldsLock(s.calls[c]);
        step := Submit(c, match s.calls[c].pc
          case CChecking(_) => CallTest
          case CDozing => CallSleep
          case CPassed => Admit
          case _ => Push);
      case ByWorker(w) =>
        assert HoldsLock(s.workers[w]);
        var woken := AnyCallSleeper(s);
        step := Thread(w, match s.workers[w]
          case Checking(_) => Test
          case Dozing => Sleep
          case Expired => ReadRunning
          case Reaping => Reap
          case _ => Proceed(woken));
    }
  }

  /** No reachable state is stuck before stop() has returned: something other than a new submit call can
      happen, the clean-up under the mutex included. */
  lemma StopProgress(k: Config, s: State) returns (step: Step)
    requires Reachable(k, s) && !s.stopper.Returned?
    ensures Enabled(k, s, step) && !(step.Main? && step.cmd.Begin?)
  {
    hide Reachable, LockOk, QueueInv, LedgerInv, SignalInv, WorkerEnabled, CallEnabled;
    ReachableInv(k, s);
    match s.stopper
    case NotCalled =>
      step := Main(match s.starter
        case NotStarted => SetRunning
        case Launching(n) => if n < k.initThreads then Launch else Flip
        case Counting(_) => CountLaunched);
    case Flipped =>
      if s.lock.Free? {
        step := Main(Fence);
      } else {
        step := HolderMoves(k, s);
      }
    case Fencing => step := Main(Unfence);
    case Fenced => step := Main(NotifyWorkers);
    case SignalledWorkers => step := Main(NotifyCalls);
    case SignalledCalls =>
      if AllFinished(s.workers) {
        step := Main(Join);
      } else {
        step := ShutdownProgress(k, s);
      }
    case Joined =>
      if s.lock.Free? {
        step := Main(Clear);
      } else {
        step := HolderMoves(k, s);
      }
  }

  lemma AnyCallSleeper(s: State) returns (woken: Option<nat>)
    ensures WakesCall(s, woken)
  {
    if c :| 0 <= c < |s.calls| && s.calls[c].pc.CAsleep? {
      woken := Some(c);
    } else {
      woken := None;
    }
  }

  // ---- counters -------------------------------------------------------------------------------

  function IsLive(pc: WorkerPc): int { if Finished(pc) then 0 else 1 }

  /** The two counters differ by the number of threads running a task. While the pool runs and start()
      is done, retirement leaves at least the initial number of live threads. */
  lemma CountersMean(k: Config, s: State)
    requires Reachable(k, s)
    ensures s.cur - s.idle == Sum(s.workers, IsBusy)
    ensures s.running && s.starter == Launching(k.initThreads) ==> Sum(s.workers, IsLive) >= k.initThreads
  {
    ReachableInv(k, s);
    if s.running {
      forall w | 0 <= w < |s.workers| ensures IsLive(s.workers[w]) == InPool(s.workers[w]) {}
      SameSum(s.workers, |s.workers|);
    }
  }

  lemma {:induction false} SameSum(workers: seq<WorkerPc>, n: nat)
    requires n <= |workers| && forall w | 0 <= w < n :: IsLive(workers[w]) == InPool(workers[w])
    ensures SumTo(workers, n, IsLive) == SumTo(workers, n, InPool)
  {
    if n > 0 {
      SameSum(workers, n - 1);
    }
  }

  /** The growth guard can read idle == 0 only while some spawned thread is still uncounted. */
  lemma GrowthNeedsUncounted(k: Config, s: State, w: nat)
    requires Reachable(k, s)
    requires w < |s.workers| && s.workers[w].GuardIdle? && s.idle == 0
    ensures Uncounted(s) > 0
  {
    ReachableInv(k, s);
    GuardReads(k, s, w);
  }

  lemma GuardReads(k: Config, s: State, w: nat)
    requires CounterInv(k, s) && w < |s.workers| && s.workers[w].GuardIdle? && s.idle == 0
    ensures Uncounted(s) > 0
  {
    SumGap(s.workers, |s.workers|, IsBusy, InPool, w);
  }

  /** start() is over and no thread is past a zero read of the idle counter. */
  ghost predicate Settled(k: Config, s: State)
  {
    s.starter == Launching(k.initThreads) && NoneGrowing(s.workers)
  }

  predicate Growing(pc: WorkerPc) { pc.GuardQueue? || pc.GuardCount? || pc.Enrolling? }

  ghost predicate NoneGrowing(workers: seq<WorkerPc>)
  {
    forall w | 0 <= w < |workers| :: !Growing(workers[w])
  }

  lemma SettledStays(k: Config, s: State, step: Step)
    requires CounterInv(k, s) && Settled(k, s) && Enabled(k, s, step)
    ensures Settled(k, Apply(k, s, step)) && |Apply(k, s, step).workers| == |s.workers|
  {
    if step.Thread? {
      SettledThread(k, s, step.w, step.act);
    }
  }

  lemma SettledThread(k: Config, s: State, w: nat, act: Act)
    requires CounterInv(k, s) && Settled(k, s) && WorkerEnabled(k, s, w, act)
    ensures var s' := WorkerEffect(k, s, w, act);
      s'.starter == s.starter && NoneGrowing(s'.workers) && |s'.workers| == |s.workers|
  {
    if act.ReadIdle? && s.idle == 0 {
      NoUncounted(k, s, w);
      assert false;
    }
    assert !Growing(s.workers[w]);
  }

  lemma NoUncounted(k: Config, s: State, w: nat)
    requires CounterInv(k, s) && Settled(k, s) && w < |s.workers| && s.workers[w].GuardIdle?
    ensures s.idle != 0
  {
    if s.idle == 0 {
      GuardReads(k, s, w);
      SumZero(s.workers, |s.workers|, IsEnrolling);
      assert false;
    }
  }

  /** After start-up settles the pool never grows again. */
  lemma SettledNeverGrows(k: Config, s: State, more: seq<Step>)
    requires Reachable(k, s) && CanRun(k, s, more) && Settled(k, s)
    ensures |After(k, s, more).workers| == |s.workers|
  {
    ReachableInv(k, s);
    SettledAlong(k, s, more);
  }

  lemma {:induction false} SettledAlong(k: Config, s: State, more: seq<Step>)
    requires Inv(k, s) && CanRun(k, s, more) && Settled(k, s)
    ensures Settled(k, After(k, s, more)) && |After(k, s, more).workers| == |s.workers|
  {
    if more != [] {
      var n := |more| - 1;
      SettledAlong(k, s, more[..n]);
      KeptAlong(k, s, more[..n]);
      SettledStays(k, After(k, s, more[..n]), more[n]);
    }
  }
}
