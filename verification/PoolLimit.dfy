/** The thread limit of the pool: growth tests the counter before the new thread is counted, so the limit
    holds over all runs only for pools that cannot grow. */
module PoolLimit {
  import opened PoolModel
  import opened PoolInvariant
  import opened PoolTheorems

  // ---- pools that keep it ---------------------------------------------------------------------

  /** Past a task, on the way to growing. */
  predicate MayGrow(pc: WorkerPc) { pc.GuardIdle? || Growing(pc) }

  predicate Still(k: Config, pc: WorkerPc)
  {
    && (k.mode.Fixed? ==> !MayGrow(pc))
    && (k.maxQueue == 0 ==> !MayGrow(pc) && IsBusy(pc) == 0)
  }

  ghost predicate AllStill(k: Config, workers: seq<WorkerPc>)
  {
    forall w | 0 <= w < |workers| :: Still(k, workers[w])
  }

  /** Threads that start() has spawned and counted. */
  function Counted(s: State): nat
  {
    match s.starter
    case NotStarted => 0
    case Launching(n) => n
    case Counting(n) => n
  }

  /** No thread of this pool ever reaches the growth guard. */
  predicate NeverGrows(k: Config)
  {
    k.mode.Fixed? || k.initThreads == 0 || k.maxQueue == 0
  }

  ghost predicate WithinStart(k: Config, s: State)
  {
    AllStill(k, s.workers) && s.cur <= Counted(s)
  }

  lemma StillWorker(k: Config, s: State, w: nat, act: Act)
    requires NeverGrows(k) && QueueInv(k, s) && PhaseInv(k, s) && WithinStart(k, s) && WorkerEnabled(k, s, w, act)
    ensures WithinStart(k, WorkerEffect(k, s, w, act))
  {
    hide QueueOk;
    assert Still(k, s.workers[w]);
    assert k.maxQueue == 0 ==> s.queue == [] by { QueueShort(k, s); }
  }

  lemma QueueShort(k: Config, s: State)
    requires QueueInv(k, s)
    ensures |s.queue| <= k.maxQueue
  {}

  lemma StillStep(k: Config, s: State, step: Step)
    requires NeverGrows(k) && QueueInv(k, s) && PhaseInv(k, s) && WithinStart(k, s) && Enabled(k, s, step)
    ensures WithinStart(k, Apply(k, s, step))
  {
    hide QueueInv, PhaseInv;
    if step.Thread? {
      StillWorker(k, s, step.w, step.act);
    }
  }

  lemma {:induction false} StillAlong(k: Config, steps: seq<Step>)
    requires NeverGrows(k) && CanRun(k, INITIAL, steps)
    ensures WithinStart(k, After(k, INITIAL, steps))
  {
    hide Enabled, Apply, WithinStart;
    if steps == [] {
      StillAtFirst(k);
    } else {
      var n := |steps| - 1;
      StillAlong(k, steps[..n]);
      InitialInv(k);
      KeptAlong(k, INITIAL, steps[..n]);
      StillStep(k, After(k, INITIAL, steps[..n]), steps[n]);
    }
  }

  lemma StillAtFirst(k: Config)
    ensures WithinStart(k, INITIAL)
  {}

  // ---- start() alone --------------------------------------------------------------------------

  lemma {:induction false} StartCounts(k: Config, n: nat) returns (s: State)
    requires n <= k.initThreads
    ensures Reachable(k, s) && s.starter == Launching(n) && s.cur == n && s.running
  {
    hide Reachable;
    if n == 0 {
      ReachesInitial(k);
      s := INITIAL.(running := true, starter := Launching(0));
      Reach(k, INITIAL, Main(SetRunning), s);
    } else {
      var before := StartCounts(k, n - 1);
      var launched := Apply(k, before, Main(Launch));
      Reach(k, before, Main(Launch), launched);
      s := Apply(k, launched, Main(CountLaunched));
      Reach(k, launched, Main(CountLaunched), s);
    }
  }

  lemma ReachesInitial(k: Config)
    ensures Reachable(k, INITIAL)
  {
    assert CanRun(k, INITIAL, []) && After(k, INITIAL, []) == INITIAL;
  }

  // ---- a pool that overruns it ------------------------------------------------------------------

  ghost predicate AllAccepted(calls: seq<Call>)
  {
    forall c | 0 <= c < |calls| :: calls[c].pc.CAccepted?
  }

  /** The state with one more call, at this point of submit. */
  function Calling(s: State, pc: CallPc, lock: Owner): State
  {
    s.(calls := s.calls + [Call(false, false, pc)], lock := lock)
  }

  function Pushed(s: State, pc: CallPc): State
  {
    Calling(s, pc, Free).(queue := s.queue + [|s.calls|], taskSize := s.taskSize + 1, accepted := s.accepted + [|s.calls|])
  }

  lemma PushEnters(k: Config, s: State)
    requires Reachable(k, s) && s.running && s.lock.Free? && s.taskSize < k.maxQueue
    ensures Reachable(k, Calling(s, CAdmitted, ByCall(|s.calls|)))
  {
    hide Reachable;
    var c := |s.calls|;
    Reach(k, s, Main(Begin(false)), Calling(s, CWanting(false), Free));
    Reach(k, Calling(s, CWanting(false), Free), Submit(c, CallAcquire), Calling(s, CChecking(false), ByCall(c)));
    Reach(k, Calling(s, CChecking(false), ByCall(c)), Submit(c, CallTest), Calling(s, CPassed, ByCall(c)));
    Reach(k, Calling(s, CPassed, ByCall(c)), Submit(c, Admit), Calling(s, CAdmitted, ByCall(c)));
  }

  /** While nobody sleeps, a task can be submitted. */
  lemma PushTask(k: Config, s: State)
    requires Reachable(k, s) && s.running && s.lock.Free? && s.taskSize < k.maxQueue && NoSleeper(s.workers)
    ensures Reachable(k, Pushed(s, CAccepted))
  {
    hide Reachable;
    var c := |s.calls|;
    PushEnters(k, s);
    Reach(k, Calling(s, CAdmitted, ByCall(c)), Submit(c, Push), Pushed(s, CSignalling));
    Reach(k, Pushed(s, CSignalling), Submit(c, Signal(None)), Pushed(s, CAccepted));
  }

  /** The state with one worker elsewhere. */
  function At(s: State, w: nat, pc: WorkerPc, lock: Owner): State
    requires w < |s.workers|
  {
    s.(workers := s.workers[w := pc], lock := lock)
  }

  function Popped(s: State, w: nat, pc: WorkerPc): State
    requires w < |s.workers| && s.queue != []
  {
    At(s, w, pc, Free).(queue := s.queue[1..], taskSize := s.taskSize - 1, idle := s.idle - 1,
                        removed := s.removed + [s.queue[0]])
  }

  lemma WorkerPops(k: Config, s: State, w: nat)
    requires Reachable(k, s) && w < |s.workers| && s.workers[w] == Wanting(false)
    requires s.lock.Free? && s.queue != [] && AllAccepted(s.calls)
    ensures Reachable(k, Popped(s, w, Holding(s.queue[0])))
  {
    hide Reachable;
    Reach(k, s, Thread(w, Acquire), At(s, w, Checking(false), ByWorker(w)));
    Reach(k, At(s, w, Checking(false), ByWorker(w)), Thread(w, Test), At(s, w, Passed, ByWorker(w)));
    Reach(k, At(s, w, Passed, ByWorker(w)), Thread(w, Proceed(None)), Popped(s, w, Holding(s.queue[0])));
  }

  function Ran(s: State, w: nat, pc: WorkerPc): State
    requires w < |s.workers| && s.queue != []
  {
    Popped(s, w, pc).(invoked := s.invoked + [s.queue[0]], idle := s.idle)
  }

  lemma WorkerRuns(k: Config, s: State, w: nat)
    requires k.mode.Cache? && Reachable(k, s) && w < |s.workers| && s.workers[w] == Wanting(false)
    requires s.lock.Free? && s.queue != [] && AllAccepted(s.calls)
    ensures Reachable(k, Ran(s, w, GuardIdle))
  {
    hide Reachable;
    var task := s.queue[0];
    WorkerPops(k, s, w);
    Reach(k, Popped(s, w, Holding(task)), Thread(w, Invoke), Ran(s, w, Running(task)).(idle := s.idle - 1));
    Reach(k, Ran(s, w, Running(task)).(idle := s.idle - 1), Thread(w, Finish), Ran(s, w, GuardIdle));
  }

  lemma WorkerGrows(k: Config, s: State, w: nat)
    requires Reachable(k, s) && w < |s.workers| && s.workers[w].GuardIdle?
    requires s.idle == 0 && s.taskSize > 0 && s.cur < k.maxThreads
    ensures Reachable(k, Spawn(Move(s, w, Enrolling)))
  {
    hide Reachable;
    Reach(k, s, Thread(w, ReadIdle), Move(s, w, GuardQueue));
    Reach(k, Move(s, w, GuardQueue), Thread(w, ReadQueue), Move(s, w, GuardCount));
    Reach(k, Move(s, w, GuardCount), Thread(w, ReadCount), Spawn(Move(s, w, Enrolling)));
  }

  /** start() has spawned one thread and not counted it; each thread in turn has run a task, found nobody
      idle and spawned the next, which it has not counted either. */
  ghost predicate Ladder(s: State, rung: nat)
  {
    && s.running && s.lock.Free? && |s.queue| == s.taskSize == 1 && s.cur == 0 && s.idle == 0
    && |s.workers| == rung + 1 && s.workers[rung] == Wanting(false)
    && (forall w | 0 <= w < rung :: s.workers[w].Enrolling?) && AllAccepted(s.calls)
  }

  lemma FirstRung(k: Config) returns (s: State)
    requires k.initThreads >= 1 && k.maxQueue >= 1
    ensures Reachable(k, s) && Ladder(s, 0)
  {
    hide Reachable;
    ReachesInitial(k);
    var started := INITIAL.(running := true, starter := Launching(0));
    Reach(k, INITIAL, Main(SetRunning), started);
    var launched := started.(workers := [Wanting(false)], starter := Counting(0));
    Reach(k, started, Main(Launch), launched);
    PushTask(k, launched);
    s := Pushed(launched, CAccepted);
  }

  lemma NextRung(k: Config, s: State, rung: nat) returns (s': State)
    requires k.mode.Cache? && k.maxThreads >= 1 && k.maxQueue >= 1 && Reachable(k, s) && Ladder(s, rung)
    ensures Reachable(k, s') && Ladder(s', rung + 1)
  {
    hide Reachable;
    WorkerRuns(k, s, rung);
    var ran := Ran(s, rung, GuardIdle);
    PushTask(k, ran);
    var pushed := Pushed(ran, CAccepted);
    WorkerGrows(k, pushed, rung);
    s' := Spawn(Move(pushed, rung, Enrolling));
  }

  lemma {:induction false} Climb(k: Config, rung: nat) returns (s: State)
    requires k.mode.Cache? && k.initThreads >= 1 && k.maxThreads >= 1 && k.maxQueue >= 1
    ensures Reachable(k, s) && Ladder(s, rung)
  {
    hide Reachable, Ladder;
    if rung == 0 {
      s := FirstRung(k);
    } else {
      var below := Climb(k, rung - 1);
      s := NextRung(k, below, rung - 1);
    }
  }

  /** Then they are counted, one after the other. */
  lemma {:induction false} Count(k: Config, top: State, rung: nat, n: nat) returns (s: State)
    requires Reachable(k, top) && Ladder(top, rung) && n <= rung
    ensures Reachable(k, s) && s.cur == n && |s.workers| == rung + 1
    ensures forall w | n <= w < rung :: s.workers[w].Enrolling?
  {
    hide Reachable;
    if n == 0 {
      s := top;
    } else {
      var before := Count(k, top, rung, n - 1);
      s := Apply(k, before, Thread(n - 1, Enrol));
      Reach(k, before, Thread(n - 1, Enrol), s);
    }
  }

  /** A pool that can grow at all counts more threads than its limit in some run. */
  lemma Overrun(k: Config) returns (s: State)
    requires k.mode.Cache? && 1 <= k.initThreads <= k.maxThreads && k.maxQueue >= 1
    ensures Reachable(k, s) && s.cur == k.maxThreads + 1
  {
    hide Reachable, Ladder;
    var top := Climb(k, k.maxThreads + 1);
    s := Count(k, top, k.maxThreads + 1, k.maxThreads + 1);
  }

  /** The thread counter stays within the limit over all runs exactly when the limit is not below the
      initial size and the pool never grows: it is fixed, has no initial thread, or accepts nothing. */
  lemma LimitExactly(k: Config)
    ensures (forall s | Reachable(k, s) :: s.cur <= k.maxThreads) <==> k.initThreads <= k.maxThreads && NeverGrows(k)
  {
    hide CanRun, After;
    if k.initThreads > k.maxThreads {
      var s := StartCounts(k, k.initThreads);
    } else if NeverGrows(k) {
      forall s | Reachable(k, s) ensures s.cur <= k.maxThreads {
        var steps :| CanRun(k, INITIAL, steps) && After(k, INITIAL, steps) == s;
        StillAlong(k, steps);
        ReachableInv(k, s);
      }
    } else {
      var s := Overrun(k);
    }
  }
}
