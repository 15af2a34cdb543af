/** What every step of the pool keeps. The invariant is stated in six parts, each with its own
    preservation lemma; `ReachableInv` puts them together for every state of every run. */
module PoolInvariant {
  import opened Sums
  import opened PoolModel

  // ---- quantities -------------------------------------------------------------------------

  function IsBusy(pc: WorkerPc): int { if pc.Holding? || pc.Running? then 1 else 0 }
  function InPool(pc: WorkerPc): int { if pc.Retired? then 0 else 1 }
  function IsEnrolling(pc: WorkerPc): int { if pc.Enrolling? then 1 else 0 }
  function IsSleeping(pc: WorkerPc): int { if pc.Asleep? then 1 else 0 }

  /** Awake, not busy, and going to look at the queue before it can sleep or leave. */
  function WillLook(pc: WorkerPc): int
  {
    if pc.Wanting? || pc.Checking? || pc.Passed? || pc.GuardIdle? || pc.GuardQueue? || pc.GuardCount? || pc.Enrolling?
    then 1 else 0
  }

  function HeldTask(pc: WorkerPc): multiset<TaskId>
  {
    if pc.Holding? then multiset{pc.task} else multiset{}
  }

  function OwesSignal(call: Call): int { if call.pc.CSignalling? then 1 else 0 }
  function CallSleeping(call: Call): int { if call.pc.CAsleep? then 1 else 0 }

  /** Woken inside submit and going to look at the queue length before it can sleep again. */
  function WillTry(call: Call): int
  {
    if call.slept && (call.pc.CWanting? || call.pc.CChecking? || call.pc.CPassed? || call.pc.CAdmitted?) then 1 else 0
  }

  /** Threads that run but are not in the counters yet. */
  function Uncounted(s: State): int
  {
    Sum(s.workers, IsEnrolling) + if s.starter.Counting? then 1 else 0
  }

  function Launched(s: State): nat
  {
    match s.starter
    case NotStarted => 0
    case Launching(n) => n
    case Counting(n) => n + 1
  }

  // ---- the invariant ----------------------------------------------------------------------

  /** The mutex has at most one holder, and the recorded owner is that holder. */
  ghost predicate LockOk(workers: seq<WorkerPc>, calls: seq<Call>, lock: Owner)
  {
    && (forall w | 0 <= w < |workers| :: HoldsLock(workers[w]) <==> lock == ByWorker(w))
    && (forall c | 0 <= c < |calls| :: CallHoldsLock(calls[c]) <==> lock == ByCall(c))
    && (lock.ByWorker? ==> lock.w < |workers|)
    && (lock.ByCall? ==> lock.c < |calls|)
  }

  ghost predicate LockInv(s: State)
  {
    LockOk(s.workers, s.calls, s.lock) && (s.lock.ByStop? <==> s.stopper.Fencing?)
  }

  predicate SawEmpty(pc: WorkerPc) { pc.Dozing? || pc.Expired? || pc.Reaping? }

  /** What a submitter holding the mutex learned about the queue is still true. */
  predicate CallKnows(k: Config, call: Call, running: bool, length: nat)
  {
    && (call.pc.CDozing? ==> length == k.maxQueue)
    && (call.pc.CPassed? && running ==> length < k.maxQueue)
    && (call.pc.CAdmitted? ==> length < k.maxQueue)
  }

  /** The size counter is the queue length, within the threshold, and what a mutex holder learned
      about the queue is still true. */
  ghost predicate QueueOk(k: Config, workers: seq<WorkerPc>, calls: seq<Call>, running: bool, length: nat)
  {
    && length <= k.maxQueue
    && (forall w | 0 <= w < |workers| && SawEmpty(workers[w]) :: length == 0)
    && (forall c | 0 <= c < |calls| :: CallKnows(k, calls[c], running, length))
  }

  ghost predicate QueueInv(k: Config, s: State)
  {
    s.taskSize == |s.queue| && QueueOk(k, s.workers, s.calls, s.running, |s.queue|)
  }

  ghost predicate Distinct(s: seq<TaskId>)
  {
    forall i, j | 0 <= i < j < |s| :: s[i] != s[j]
  }

  predicate WasPushed(call: Call)
  {
    call.pc.CSignalling? || call.pc.CAccepted?
  }

  ghost predicate PushedOk(accepted: seq<TaskId>, calls: seq<Call>)
  {
    && Distinct(accepted)
    && forall t: TaskId :: t in accepted <==> t < |calls| && WasPushed(calls[t])
  }

  ghost predicate HandsOk(removed: seq<TaskId>, invoked: seq<TaskId>, workers: seq<WorkerPc>)
  {
    multiset(removed) == multiset(invoked) + Collect(workers, HeldTask)
  }

  /** First in, first out, and every popped task is invoked or in the hands of one worker. */
  ghost predicate LedgerInv(s: State)
  {
    && s.accepted == s.removed + s.discarded + s.queue
    && PushedOk(s.accepted, s.calls)
    && HandsOk(s.removed, s.invoked, s.workers)
  }

  ghost predicate SleepersSlept(calls: seq<Call>)
  {
    forall c | 0 <= c < |calls| && calls[c].pc.CAsleep? :: calls[c].slept
  }

  /** No wake-up is owed to a sleeper. */
  ghost predicate SignalInv(k: Config, s: State)
  {
    && (Sum(s.workers, IsSleeping) > 0 ==> |s.queue| <= Sum(s.calls, OwesSignal) + Sum(s.workers, WillLook))
    && SleepersSlept(s.calls)
    && (s.running && Sum(s.calls, CallSleeping) > 0 ==> |s.queue| + Sum(s.calls, WillTry) >= k.maxQueue)
  }

  ghost predicate CounterInv(k: Config, s: State)
  {
    && s.cur - s.idle == Sum(s.workers, IsBusy)
    && s.cur + Uncounted(s) == Sum(s.workers, InPool)
    && Launched(s) <= k.initThreads
    && Launched(s) <= Sum(s.workers, InPool)
  }

  predicate FenceTaken(s: State)
  {
    !(s.stopper.NotCalled? || s.stopper.Flipped?)
  }

  predicate WorkersSignalled(s: State)
  {
    FenceTaken(s) && !(s.stopper.Fencing? || s.stopper.Fenced?)
  }

  predicate CallsSignalled(s: State)
  {
    WorkersSignalled(s) && !s.stopper.SignalledWorkers?
  }

  /** Nothing is queued and nothing can be queued any more. */
  ghost predicate Closed(running: bool, queue: seq<TaskId>, calls: seq<Call>)
  {
    !running && queue == [] && forall c | 0 <= c < |calls| :: !calls[c].pc.CAdmitted?
  }

  /** Nobody is between a true read of `running` and acting on it. */
  ghost predicate NoStaleWorker(workers: seq<WorkerPc>)
  {
    forall w | 0 <= w < |workers| :: !SawEmpty(workers[w])
  }

  ghost predicate NoStaleCall(calls: seq<Call>)
  {
    forall c | 0 <= c < |calls| :: !calls[c].pc.CDozing? && !calls[c].pc.CAdmitted?
  }

  ghost predicate NoSleeper(workers: seq<WorkerPc>)
  {
    forall w | 0 <= w < |workers| :: !workers[w].Asleep?
  }

  ghost predicate NoCallSleeper(calls: seq<Call>)
  {
    forall c | 0 <= c < |calls| :: !calls[c].pc.CAsleep?
  }

  ghost predicate AllFinished(workers: seq<WorkerPc>)
  {
    forall w | 0 <= w < |workers| :: Finished(workers[w])
  }

  ghost predicate AllRejected(calls: seq<Call>)
  {
    forall c | 0 <= c < |calls| :: calls[c].pc.CRejected?
  }

  ghost predicate SomeExited(workers: seq<WorkerPc>)
  {
    exists w | 0 <= w < |workers| :: workers[w].Exited?
  }

  /** A pool without initial threads that accepts tasks: nobody ever runs them. */
  predicate Discards(k: Config)
  {
    k.initThreads == 0 && k.maxQueue > 0
  }

  ghost predicate PhaseInv(k: Config, s: State)
  {
    && (k.initThreads == 0 ==> s.workers == [])
    && (s.running <==> !s.starter.NotStarted? && s.stopper.NotCalled?)
    && (!s.stopper.NotCalled? ==> s.starter == Launching(k.initThreads))
    && (s.starter.NotStarted? ==> s.workers == [] && AllRejected(s.calls))
  }

  ghost predicate StopInv(k: Config, s: State)
  {
    && PhaseInv(k, s)
    && (SomeExited(s.workers) ==> Closed(s.running, s.queue, s.calls))
    && (FenceTaken(s) ==> NoStaleWorker(s.workers) && NoStaleCall(s.calls))
    && (WorkersSignalled(s) ==> NoSleeper(s.workers))
    && (CallsSignalled(s) ==> NoCallSleeper(s.calls))
    && (s.stopper.Joined? || s.stopper.Returned? ==> AllFinished(s.workers))
    && (s.discarded == [] || Discards(k))
  }

  ghost predicate Inv(k: Config, s: State)
  {
    LockInv(s) && QueueInv(k, s) && LedgerInv(s) && SignalInv(k, s) && CounterInv(k, s) && StopInv(k, s)
  }

  lemma InitialInv(k: Config)
    ensures Inv(k, INITIAL)
  {}

  // ---- preservation -----------------------------------------------------------------------

  lemma LockMoved(s: State, w: nat, pc: WorkerPc, lock: Owner)
    requires LockInv(s) && w < |s.workers|
    requires
      || (lock == s.lock && (HoldsLock(pc) <==> HoldsLock(s.workers[w])))
      || (s.lock.Free? && lock == ByWorker(w) && HoldsLock(pc))
      || (s.lock == ByWorker(w) && lock.Free? && !HoldsLock(pc))
    ensures LockOk(s.workers[w := pc], s.calls, lock)
  {}

  lemma LockMovedCall(workers: seq<WorkerPc>, calls: seq<Call>, before: Owner, c: nat, call: Call, lock: Owner)
    requires LockOk(workers, calls, before) && c < |calls|
    requires
      || (lock == before && (CallHoldsLock(call) <==> CallHoldsLock(calls[c])))
      || (before.Free? && lock == ByCall(c) && CallHoldsLock(call))
      || (before == ByCall(c) && lock.Free? && !CallHoldsLock(call))
    ensures LockOk(workers, calls[c := call], lock)
  {}

  lemma LockKeptWorker(k: Config, s: State, w: nat, act: Act)
    requires LockInv(s) && WorkerEnabled(k, s, w, act)
    ensures LockInv(WorkerEffect(k, s, w, act))
  {
    var s' := WorkerEffect(k, s, w, act);
    LockMoved(s, w, s'.workers[w], s'.lock);
    if act.Proceed? && s.queue != [] && act.woken.Some? {
      LockMovedCall(s'.workers, s.calls, s'.lock, act.woken.value, s'.calls[act.woken.value], s'.lock);
    }
  }

  lemma LockKeptCall(k: Config, s: State, c: nat, op: CallAct)
    requires LockInv(s) && CallEnabled(s, c, op)
    ensures LockInv(CallEffect(k, s, c, op))
  {
    var s' := CallEffect(k, s, c, op);
    LockMovedCall(s.workers, s.calls, s.lock, c, s'.calls[c], s'.lock);
    if op.Signal? && op.woken.Some? {
      LockMoved(s.(calls := s'.calls), op.woken.value, Wanting(false), s.lock);
    }
  }

  lemma LockKeptOther(k: Config, s: State, cmd: MainAct)
    requires LockInv(s) && MainEnabled(k, s, cmd)
    ensures LockInv(MainEffect(k, s, cmd))
  {}

  lemma QueueMoved(k: Config, s: State, w: nat, pc: WorkerPc, length: nat)
    requires LockInv(s) && QueueInv(k, s) && w < |s.workers|
    requires length == |s.queue| || (s.lock == ByWorker(w) && length <= |s.queue|)
    requires SawEmpty(pc) ==> length == 0
    ensures QueueOk(k, s.workers[w := pc], s.calls, s.running, length)
  {
    if s.lock == ByWorker(w) {
      forall v | 0 <= v < |s.workers| && v != w ensures !SawEmpty(s.workers[v]) {
        assert HoldsLock(s.workers[v]) <==> s.lock == ByWorker(v);
      }
      forall c | 0 <= c < |s.calls| ensures !CallHoldsLock(s.calls[c]) {}
    }
  }

  lemma QueueKeptWorker(k: Config, s: State, w: nat, act: Act)
    requires LockInv(s) && QueueInv(k, s) && WorkerEnabled(k, s, w, act)
    ensures QueueInv(k, WorkerEffect(k, s, w, act))
  {
    assert HoldsLock(s.workers[w]) ==> s.lock == ByWorker(w);
    hide LockOk;
    var s' := WorkerEffect(k, s, w, act);
    QueueMoved(k, s, w, s'.workers[w], |s'.queue|);
  }

  lemma QueueMovedCall(k: Config, s: State, c: nat, call: Call, length: nat)
    requires LockInv(s) && QueueInv(k, s) && c < |s.calls|
    requires length == |s.queue| || (s.lock == ByCall(c) && length <= k.maxQueue)
    requires CallKnows(k, call, s.running, length)
    ensures QueueOk(k, s.workers, s.calls[c := call], s.running, length)
  {
    if s.lock == ByCall(c) {
      forall w | 0 <= w < |s.workers| ensures !SawEmpty(s.workers[w]) {
        assert HoldsLock(s.workers[w]) <==> s.lock == ByWorker(w);
      }
      forall d | 0 <= d < |s.calls| && d != c ensures !CallHoldsLock(s.calls[d]) {}
    }
  }

  lemma QueueKeptCall(k: Config, s: State, c: nat, op: CallAct)
    requires LockInv(s) && QueueInv(k, s) && CallEnabled(s, c, op)
    ensures QueueInv(k, CallEffect(k, s, c, op))
  {
    var s' := CallEffect(k, s, c, op);
    QueueMovedCall(k, s, c, s'.calls[c], |s'.queue|);
  }

  lemma QueueKeptOther(k: Config, s: State, cmd: MainAct)
    requires LockInv(s) && QueueInv(k, s) && PhaseInv(k, s) && MainEnabled(k, s, cmd)
    ensures QueueInv(k, MainEffect(k, s, cmd))
  {
    if cmd.Clear? {
      forall w | 0 <= w < |s.workers| ensures !SawEmpty(s.workers[w]) {
        assert HoldsLock(s.workers[w]) <==> s.lock == ByWorker(w);
      }
    }
  }

  // ledger

  lemma HandsMoved(s: State, w: nat, pc: WorkerPc)
    requires HandsOk(s.removed, s.invoked, s.workers) && w < |s.workers|
    requires HeldTask(pc) == HeldTask(s.workers[w])
    ensures HandsOk(s.removed, s.invoked, s.workers[w := pc])
  {
    forall v | 0 <= v < |s.workers| ensures HeldTask(s.workers[w := pc][v]) == HeldTask(s.workers[v]) {}
    CollectPointwise(s.workers, s.workers[w := pc], HeldTask);
  }

  lemma HandsTake(s: State, w: nat, t: TaskId)
    requires HandsOk(s.removed, s.invoked, s.workers) && w < |s.workers| && HeldTask(s.workers[w]) == multiset{}
    ensures HandsOk(s.removed + [t], s.invoked, s.workers[w := Holding(t)])
  {
    CollectUpdate(s.workers, w, Holding(t), HeldTask);
    var before, after := Collect(s.workers, HeldTask), Collect(s.workers[w := Holding(t)], HeldTask);
    assert after == after + multiset{} == before + multiset{t};
  }

  lemma HandsInvoke(s: State, w: nat)
    requires HandsOk(s.removed, s.invoked, s.workers) && w < |s.workers| && s.workers[w].Holding?
    ensures HandsOk(s.removed, s.invoked + [s.workers[w].task], s.workers[w := Running(s.workers[w].task)])
  {
    var t := s.workers[w].task;
    CollectUpdate(s.workers, w, Running(t), HeldTask);
    var before, after := Collect(s.workers, HeldTask), Collect(s.workers[w := Running(t)], HeldTask);
    assert before == before + multiset{} == after + multiset{t};
    assert multiset(s.invoked + [t]) + after == multiset(s.invoked) + before;
  }

  lemma PushedMoved(accepted: seq<TaskId>, calls: seq<Call>, c: nat, call: Call)
    requires PushedOk(accepted, calls) && c < |calls| && WasPushed(calls[c]) == WasPushed(call)
    ensures PushedOk(accepted, calls[c := call])
  {
    forall t: TaskId ensures t in accepted <==> t < |calls| && WasPushed(calls[c := call][t]) {
      assert t in accepted <==> t < |calls| && WasPushed(calls[t]);
    }
  }

  lemma HandsKeptPop(s: State, w: nat, woken: Option<nat>)
    requires HandsOk(s.removed, s.invoked, s.workers) && w < |s.workers| && s.workers[w].Passed? && WakesCall(s, woken)
    ensures var s' := ProceedEffect(s, w, woken); HandsOk(s'.removed, s'.invoked, s'.workers)
  {
    if s.queue == [] {
      HandsMoved(s, w, ProceedEffect(s, w, woken).workers[w]);
    } else {
      HandsTake(s, w, s.queue[0]);
    }
  }

  lemma HandsKeptGrow(s: State, w: nat)
    requires HandsOk(s.removed, s.invoked, s.workers) && w < |s.workers| && s.workers[w].GuardCount?
    ensures HandsOk(s.removed, s.invoked, Spawn(Move(s, w, Enrolling)).workers)
  {
    HandsMoved(s, w, Enrolling);
    CollectAppend(s.workers[w := Enrolling], Wanting(false), HeldTask);
  }

  lemma HandsKeptWorker(k: Config, s: State, w: nat, act: Act)
    requires HandsOk(s.removed, s.invoked, s.workers) && WorkerEnabled(k, s, w, act)
    ensures var s' := WorkerEffect(k, s, w, act); HandsOk(s'.removed, s'.invoked, s'.workers)
  {
    hide HandsOk, ProceedEffect;
    if act.Proceed? {
      HandsKeptPop(s, w, act.woken);
    } else if act.Invoke? {
      HandsInvoke(s, w);
    } else if act.ReadCount? && s.cur < k.maxThreads {
      HandsKeptGrow(s, w);
    } else {
      HandsMoved(s, w, WorkerEffect(k, s, w, act).workers[w]);
    }
  }

  lemma PushedKeptWorker(k: Config, s: State, w: nat, act: Act)
    requires PushedOk(s.accepted, s.calls) && WorkerEnabled(k, s, w, act)
    ensures var s' := WorkerEffect(k, s, w, act); PushedOk(s'.accepted, s'.calls)
  {
    var s' := WorkerEffect(k, s, w, act);
    if act.Proceed? && s.queue != [] && act.woken.Some? {
      PushedMoved(s.accepted, s.calls, act.woken.value, s'.calls[act.woken.value]);
    }
  }

  lemma OrderKeptWorker(k: Config, s: State, w: nat, act: Act)
    requires s.accepted == s.removed + s.discarded + s.queue && s.discarded == []
    requires WorkerEnabled(k, s, w, act)
    ensures var s' := WorkerEffect(k, s, w, act); s'.accepted == s'.removed + s'.discarded + s'.queue
  {}

  lemma PushedKeptCall(k: Config, s: State, c: nat, op: CallAct)
    requires PushedOk(s.accepted, s.calls) && CallEnabled(s, c, op)
    ensures var s' := CallEffect(k, s, c, op); PushedOk(s'.accepted, s'.calls)
  {
    var s' := CallEffect(k, s, c, op);
    if !op.Push? {
      PushedMoved(s.accepted, s.calls, c, s'.calls[c]);
    }
  }

  lemma HandsKeptCall(k: Config, s: State, c: nat, op: CallAct)
    requires HandsOk(s.removed, s.invoked, s.workers) && CallEnabled(s, c, op)
    ensures var s' := CallEffect(k, s, c, op); HandsOk(s'.removed, s'.invoked, s'.workers)
  {
    if op.Signal? && op.woken.Some? {
      HandsMoved(s, op.woken.value, Wanting(false));
    }
  }

  lemma HandsKeptOther(k: Config, s: State, cmd: MainAct)
    requires HandsOk(s.removed, s.invoked, s.workers) && MainEnabled(k, s, cmd)
    ensures var s' := MainEffect(k, s, cmd); HandsOk(s'.removed, s'.invoked, s'.workers)
  {
    var s' := MainEffect(k, s, cmd);
    if cmd.Launch? {
      CollectAppend(s.workers, Wanting(false), HeldTask);
    } else if cmd.NotifyWorkers? {
      CollectPointwise(s.workers, s'.workers, HeldTask);
    } else {
      assert s'.workers == s.workers;
    }
  }

  lemma OrderKeptCall(k: Config, s: State, c: nat, op: CallAct)
    requires s.accepted == s.removed + s.discarded + s.queue && CallEnabled(s, c, op)
    ensures var s' := CallEffect(k, s, c, op); s'.accepted == s'.removed + s'.discarded + s'.queue
  {}

  lemma OrderKeptOther(k: Config, s: State, cmd: MainAct)
    requires s.accepted == s.removed + s.discarded + s.queue && MainEnabled(k, s, cmd)
    ensures var s' := MainEffect(k, s, cmd); s'.accepted == s'.removed + s'.discarded + s'.queue
  {}

  lemma PushedKeptOther(k: Config, s: State, cmd: MainAct)
    requires PushedOk(s.accepted, s.calls) && MainEnabled(k, s, cmd)
    ensures var s' := MainEffect(k, s, cmd); PushedOk(s'.accepted, s'.calls)
  {}

  lemma LedgerKept(k: Config, s: State, step: Step)
    requires LedgerInv(s) && (s.workers == [] || s.discarded == []) && Enabled(k, s, step)
    ensures LedgerInv(Apply(k, s, step))
  {
    match step
    case Thread(w, act) =>
      HandsKeptWorker(k, s, w, act);
      PushedKeptWorker(k, s, w, act);
      OrderKeptWorker(k, s, w, act);
    case Submit(c, op) =>
      HandsKeptCall(k, s, c, op);
      PushedKeptCall(k, s, c, op);
      OrderKeptCall(k, s, c, op);
    case Main(cmd) =>
      HandsKeptOther(k, s, cmd);
      PushedKeptOther(k, s, cmd);
      OrderKeptOther(k, s, cmd);
  }

  // signals

  lemma SignalKeptPop(k: Config, s: State, w: nat, woken: Option<nat>)
    requires SignalInv(k, s) && w < |s.workers| && s.workers[w].Passed? && WakesCall(s, woken)
    ensures SignalInv(k, ProceedEffect(s, w, woken))
  {
    var s' := ProceedEffect(s, w, woken);
    SumUpdate(s.workers, w, s'.workers[w], IsSleeping);
    SumUpdate(s.workers, w, s'.workers[w], WillLook);
    SumNonNegative(s'.workers, |s'.workers|, WillLook);
    SumNonNegative(s.calls, |s.calls|, OwesSignal);
    if woken.Some? {
      var c := woken.value;
      SumUpdate(s.calls, c, s.calls[c].(pc := CWanting(false)), CallSleeping);
      SumUpdate(s.calls, c, s.calls[c].(pc := CWanting(false)), WillTry);
      SumUpdate(s.calls, c, s.calls[c].(pc := CWanting(false)), OwesSignal);
    } else {
      SumZero(s.calls, |s.calls|, CallSleeping);
    }
  }

  lemma SignalMoved(k: Config, s: State, w: nat, pc: WorkerPc)
    requires SignalInv(k, s) && w < |s.workers|
    requires s.queue == [] || (WillLook(s.workers[w]) <= WillLook(pc) && IsSleeping(pc) <= IsSleeping(s.workers[w]))
    ensures Sum(s.workers[w := pc], IsSleeping) > 0 ==>
              |s.queue| <= Sum(s.calls, OwesSignal) + Sum(s.workers[w := pc], WillLook)
  {
    SumUpdate(s.workers, w, pc, IsSleeping);
    SumUpdate(s.workers, w, pc, WillLook);
    SumNonNegative(s.workers[w := pc], |s.workers|, WillLook);
    SumNonNegative(s.calls, |s.calls|, OwesSignal);
  }

  lemma SignalKeptWorker(k: Config, s: State, w: nat, act: Act)
    requires LockInv(s) && QueueInv(k, s) && SignalInv(k, s) && WorkerEnabled(k, s, w, act)
    ensures SignalInv(k, WorkerEffect(k, s, w, act))
  {
    var s' := WorkerEffect(k, s, w, act);
    if act.Proceed? {
      SignalKeptPop(k, s, w, act.woken);
    } else {
      SignalMoved(k, s, w, s'.workers[w]);
      if act.ReadCount? && s.cur < k.maxThreads {
        SumAppend(s.workers[w := Enrolling], Wanting(false), IsSleeping);
        SumAppend(s.workers[w := Enrolling], Wanting(false), WillLook);
      }
    }
  }

  lemma SignalKeptCall(k: Config, s: State, c: nat, op: CallAct)
    requires LockInv(s) && QueueInv(k, s) && SignalInv(k, s) && CallEnabled(s, c, op)
    ensures SignalInv(k, CallEffect(k, s, c, op))
  {
    var s' := CallEffect(k, s, c, op);
    var call := s'.calls[c];
    SumUpdate(s.calls, c, call, CallSleeping);
    SumUpdate(s.calls, c, call, WillTry);
    SumUpdate(s.calls, c, call, OwesSignal);
    if op.Signal? {
      if op.woken.Some? {
        SumUpdate(s.workers, op.woken.value, Wanting(false), IsSleeping);
        SumUpdate(s.workers, op.woken.value, Wanting(false), WillLook);
      } else {
        SumZero(s.workers, |s.workers|, IsSleeping);
      }
    }
    SumNonNegative(s'.calls, |s'.calls|, WillTry);
  }

  lemma SignalKeptOther(k: Config, s: State, cmd: MainAct)
    requires SignalInv(k, s) && PhaseInv(k, s) && MainEnabled(k, s, cmd)
    requires s.starter.NotStarted? ==> Sum(s.calls, CallSleeping) == 0
    ensures SignalInv(k, MainEffect(k, s, cmd))
  {
    var s' := MainEffect(k, s, cmd);
    match cmd
    case Launch =>
      SumAppend(s.workers, Wanting(false), IsSleeping);
      SumAppend(s.workers, Wanting(false), WillLook);
    case Begin(_) =>
      var call := s'.calls[|s.calls|];
      SumAppend(s.calls, call, CallSleeping);
      SumAppend(s.calls, call, WillTry);
      SumAppend(s.calls, call, OwesSignal);
    case NotifyWorkers => SumZero(s'.workers, |s'.workers|, IsSleeping);
    case NotifyCalls =>
      SumZero(s'.calls, |s'.calls|, CallSleeping);
      SumPointwise(s.calls, s'.calls, OwesSignal);
    case _ =>
  }

  // counters

  lemma CounterMoved(s: State, w: nat, pc: WorkerPc)
    requires w < |s.workers|
    ensures Sum(s.workers[w := pc], IsBusy) == Sum(s.workers, IsBusy) - IsBusy(s.workers[w]) + IsBusy(pc)
    ensures Sum(s.workers[w := pc], InPool) == Sum(s.workers, InPool) - InPool(s.workers[w]) + InPool(pc)
    ensures Sum(s.workers[w := pc], IsEnrolling) == Sum(s.workers, IsEnrolling) - IsEnrolling(s.workers[w]) + IsEnrolling(pc)
    ensures 0 <= Sum(s.workers, IsEnrolling)
  {
    SumUpdate(s.workers, w, pc, IsBusy);
    SumUpdate(s.workers, w, pc, InPool);
    SumUpdate(s.workers, w, pc, IsEnrolling);
    SumNonNegative(s.workers, |s.workers|, IsEnrolling);
  }

  lemma CounterJoined(workers: seq<WorkerPc>)
    ensures Sum(workers + [Wanting(false)], IsBusy) == Sum(workers, IsBusy)
    ensures Sum(workers + [Wanting(false)], InPool) == Sum(workers, InPool) + 1
    ensures Sum(workers + [Wanting(false)], IsEnrolling) == Sum(workers, IsEnrolling)
  {
    SumAppend(workers, Wanting(false), IsBusy);
    SumAppend(workers, Wanting(false), InPool);
    SumAppend(workers, Wanting(false), IsEnrolling);
  }

  lemma CounterKeptWorker(k: Config, s: State, w: nat, act: Act)
    requires CounterInv(k, s) && WorkerEnabled(k, s, w, act)
    ensures CounterInv(k, WorkerEffect(k, s, w, act))
  {
    hide Sum;
    if act.ReadCount? && s.cur < k.maxThreads {
      CounterMoved(s, w, Enrolling);
      CounterJoined(s.workers[w := Enrolling]);
    } else {
      CounterMoved(s, w, WorkerEffect(k, s, w, act).workers[w]);
    }
  }

  lemma CounterKeptCall(k: Config, s: State, c: nat, op: CallAct)
    requires CounterInv(k, s) && CallEnabled(s, c, op)
    ensures CounterInv(k, CallEffect(k, s, c, op))
  {
    if op.Signal? && op.woken.Some? {
      CounterMoved(s, op.woken.value, Wanting(false));
    }
  }

  lemma CounterKeptOther(k: Config, s: State, cmd: MainAct)
    requires CounterInv(k, s) && MainEnabled(k, s, cmd)
    requires s.starter.NotStarted? ==> s.workers == []
    ensures CounterInv(k, MainEffect(k, s, cmd))
  {
    var s' := MainEffect(k, s, cmd);
    match cmd
    case Launch => CounterJoined(s.workers);
    case NotifyWorkers =>
      SumPointwise(s.workers, s'.workers, IsBusy);
      SumPointwise(s.workers, s'.workers, InPool);
      SumPointwise(s.workers, s'.workers, IsEnrolling);
    case _ =>
  }

  // shutdown

  lemma StopMoved(k: Config, s: State, w: nat, pc: WorkerPc)
    requires StopInv(k, s) && w < |s.workers| && !Finished(s.workers[w])
    requires FenceTaken(s) ==> !SawEmpty(pc)
    requires WorkersSignalled(s) ==> !pc.Asleep?
    requires pc.Exited? ==> Closed(s.running, s.queue, s.calls)
    ensures SomeExited(s.workers[w := pc]) ==> Closed(s.running, s.queue, s.calls)
    ensures FenceTaken(s) ==> NoStaleWorker(s.workers[w := pc])
    ensures WorkersSignalled(s) ==> NoSleeper(s.workers[w := pc])
    ensures !s.stopper.Joined? && !s.stopper.Returned?
  {
    if SomeExited(s.workers[w := pc]) && !pc.Exited? {
      var v :| 0 <= v < |s.workers| && s.workers[w := pc][v].Exited?;
      assert s.workers[v].Exited?;
    }
  }

  /** A worker that passes the shutdown test holds the mutex, so no submitter is about to push. */
  lemma ExitCloses(s: State, w: nat)
    requires LockInv(s) && w < |s.workers| && s.workers[w].Passed? && !s.running && s.queue == []
    ensures Closed(s.running, s.queue, s.calls)
  {
    forall c | 0 <= c < |s.calls| ensures !s.calls[c].pc.CAdmitted? {
      assert CallHoldsLock(s.calls[c]) <==> s.lock == ByCall(c);
    }
  }

  lemma StopKeptPop(k: Config, s: State, w: nat, woken: Option<nat>)
    requires LockInv(s) && StopInv(k, s) && w < |s.workers| && s.workers[w].Passed? && WakesCall(s, woken)
    ensures StopInv(k, ProceedEffect(s, w, woken))
  {
    var s' := ProceedEffect(s, w, woken);
    if !s.running && s.queue == [] {
      ExitCloses(s, w);
    }
    StopMoved(k, s, w, s'.workers[w]);
  }

  lemma StopKeptWorker(k: Config, s: State, w: nat, act: Act)
    requires LockInv(s) && StopInv(k, s) && WorkerEnabled(k, s, w, act)
    ensures StopInv(k, WorkerEffect(k, s, w, act))
  {
    hide LockOk, ProceedEffect;
    if act.Proceed? {
      StopKeptPop(k, s, w, act.woken);
    } else {
      StopMoved(k, s, w, WorkerEffect(k, s, w, act).workers[w]);
    }
  }

  lemma StopKeptCall(k: Config, s: State, c: nat, op: CallAct)
    requires LockInv(s) && StopInv(k, s) && CallEnabled(s, c, op)
    ensures StopInv(k, CallEffect(k, s, c, op))
  {
    if op.Signal? && op.woken.Some? {
      StopMoved(k, s, op.woken.value, Wanting(false));
    }
  }

  /** When every thread has finished, at least one left through the shutdown test: retirement never
      takes the pool below its initial size. */
  lemma JoinedMeansClosed(k: Config, s: State)
    requires k.initThreads >= 1 && CounterInv(k, s) && StopInv(k, s)
    requires s.starter == Launching(k.initThreads) && AllFinished(s.workers)
    ensures Closed(s.running, s.queue, s.calls)
  {
    var w := SumWitness(s.workers, |s.workers|, InPool);
    assert s.workers[w].Exited?;
  }

  lemma StopKeptFence(k: Config, s: State)
    requires LockInv(s) && StopInv(k, s) && MainEnabled(k, s, Fence)
    ensures StopInv(k, MainEffect(k, s, Fence))
  {
    forall w | 0 <= w < |s.workers| ensures !SawEmpty(s.workers[w]) {
      assert HoldsLock(s.workers[w]) <==> s.lock == ByWorker(w);
    }
    forall c | 0 <= c < |s.calls| ensures !CallHoldsLock(s.calls[c]) {}
  }

  lemma StopKeptOther(k: Config, s: State, cmd: MainAct)
    requires LockInv(s) && QueueInv(k, s) && CounterInv(k, s) && StopInv(k, s) && MainEnabled(k, s, cmd)
    ensures StopInv(k, MainEffect(k, s, cmd))
  {
    hide LockOk, Sum;
    match cmd
    case Fence => StopKeptFence(k, s);
    case Clear =>
      if k.initThreads >= 1 {
        JoinedMeansClosed(k, s);
      }
    case NotifyWorkers =>
      var s' := MainEffect(k, s, cmd);
      if SomeExited(s'.workers) {
        var v :| 0 <= v < |s'.workers| && s'.workers[v].Exited?;
        assert s.workers[v].Exited?;
      }
    case _ =>
  }

  // ---- every reachable state ----------------------------------------------------------------

  lemma Kept(k: Config, s: State, step: Step)
    requires Inv(k, s) && Enabled(k, s, step)
    ensures Inv(k, Apply(k, s, step))
  {
    LedgerKept(k, s, step);
    match step
    case Thread(w, act) =>
      LockKeptWorker(k, s, w, act);
      QueueKeptWorker(k, s, w, act);
      SignalKeptWorker(k, s, w, act);
      CounterKeptWorker(k, s, w, act);
      StopKeptWorker(k, s, w, act);
    case Submit(c, op) =>
      LockKeptCall(k, s, c, op);
      QueueKeptCall(k, s, c, op);
      SignalKeptCall(k, s, c, op);
      CounterKeptCall(k, s, c, op);
      StopKeptCall(k, s, c, op);
    case Main(cmd) =>
      if s.starter.NotStarted? {
        SumZero(s.calls, |s.calls|, CallSleeping);
      }
      LockKeptOther(k, s, cmd);
      QueueKeptOther(k, s, cmd);
      SignalKeptOther(k, s, cmd);
      CounterKeptOther(k, s, cmd);
      StopKeptOther(k, s, cmd);
  }

  lemma {:induction false} KeptAlong(k: Config, s: State, steps: seq<Step>)
    requires Inv(k, s) && CanRun(k, s, steps)
    ensures Inv(k, After(k, s, steps))
  {
    if steps != [] {
      var n := |steps| - 1;
      KeptAlong(k, s, steps[..n]);
      Kept(k, After(k, s, steps[..n]), steps[n]);
    }
  }

  /** The invariant holds in every reachable state. */
  lemma ReachableInv(k: Config, s: State)
    requires Reachable(k, s)
    ensures Inv(k, s)
  {
    var steps :| CanRun(k, INITIAL, steps) && After(k, INITIAL, steps) == s;
    InitialInv(k);
    KeptAlong(k, INITIAL, steps);
  }
}
