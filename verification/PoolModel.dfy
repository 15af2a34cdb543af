/** The worker thread pool as a step machine. One step is one access to shared state: taking or
    leaving the mutex, one evaluation of a wait predicate, one entry into a wait set, one wake-up,
    one read of an atomic, or one critical section body. `running` is flipped outside the mutex, so
    the flip is a step of its own and may fall between any two others. */
module PoolModel {

  datatype Option<T> = None | Some(value: T)

  datatype Mode = Fixed | Cache

  datatype Config = Config(mode: Mode, initThreads: nat, maxThreads: int, maxQueue: nat)

  /** A task is named by the submit call that carries it. */
  type TaskId = nat

  datatype WorkerPc =
    | Wanting(timedOut: bool)   // wants the mutex, first time or after leaving the wait set
    | Checking(timedOut: bool)  // holds the mutex, about to evaluate the wait predicate
    | Dozing                    // holds the mutex, predicate was false, about to sleep
    | Asleep                    // in the wait set of notEmpty
    | Expired                   // holds the mutex, wait_for returned false
    | Reaping                   // holds the mutex, has read running == true after the timeout
    | Passed                    // holds the mutex, past the wait
    | Holding(task: TaskId)     // popped a task, not yet invoked
    | Running(task: TaskId)     // invoked the task, not yet idle again
    | GuardIdle                 // about to read the idle counter
    | GuardQueue                // has read idle == 0
    | GuardCount                // has read taskSize > 0
    | Enrolling                 // has spawned a thread it has not counted yet
    | Exited                    // left through the shutdown test
    | Retired                   // left through idle retirement

  datatype Reason = NotRunning | TimedOut | Stopped

  datatype CallPc =
    | CWanting(late: bool)
    | CChecking(late: bool)
    | CDozing
    | CAsleep
    | CPassed      // holds the mutex, past the wait
    | CAdmitted    // holds the mutex, has read running == true
    | CSignalling  // pushed and unlocked, has not notified yet
    | CAccepted
    | CRejected(why: Reason)

  /** A submit call, or a submit_for call when `timed`; `slept` once it has been in the wait set. */
  datatype Call = Call(timed: bool, slept: bool, pc: CallPc)

  datatype StarterPc =
    | NotStarted
    | Launching(launched: nat)  // `launched` threads spawned and counted
    | Counting(launched: nat)   // one more is spawned and not yet counted

  datatype StopPc =
    | NotCalled | Flipped | Fencing | Fenced | SignalledWorkers | SignalledCalls | Joined | Returned

  datatype Owner = Free | ByWorker(w: nat) | ByCall(c: nat) | ByStop

  datatype State = State(
    running: bool,
    lock: Owner,
    queue: seq<TaskId>,
    taskSize: int,
    cur: int,
    idle: int,
    workers: seq<WorkerPc>,
    calls: seq<Call>,
    starter: StarterPc,
    stopper: StopPc,
    accepted: seq<TaskId>,   // pushed, in push order
    removed: seq<TaskId>,    // popped, in pop order
    invoked: seq<TaskId>,    // invoked, in invocation order
    discarded: seq<TaskId>   // thrown away by the clean-up loop of stop
  )

  const INITIAL := State(false, Free, [], 0, 0, 0, [], [], NotStarted, NotCalled, [], [], [], [])

  predicate HoldsLock(pc: WorkerPc)
  {
    pc.Checking? || pc.Dozing? || pc.Expired? || pc.Reaping? || pc.Passed?
  }

  predicate CallHoldsLock(call: Call)
  {
    call.pc.CChecking? || call.pc.CDozing? || call.pc.CPassed? || call.pc.CAdmitted?
  }

  predicate Finished(pc: WorkerPc)
  {
    pc.Exited? || pc.Retired?
  }

  /** What a thread in workerLoop can do. */
  datatype Act =
    | Acquire | Test | Sleep | Spurious | Timeout | ReadRunning | Reap | Proceed(woken: Option<nat>)
    | Invoke | Finish | ReadIdle | ReadQueue | ReadCount | Enrol

  /** What a call of submit or submit_for can do once it is past its entry test. */
  datatype CallAct =
    | CallAcquire | CallTest | CallSleep | CallSpurious | CallTimeout | Admit | Push | Signal(woken: Option<nat>)

  /** Entering submit, and the steps of start() and stop(). */
  datatype MainAct =
    | Begin(timed: bool)
    | SetRunning | Launch | CountLaunched
    | Flip | Fence | Unfence | NotifyWorkers | NotifyCalls | Join | Clear

  datatype Step = Thread(w: nat, act: Act) | Submit(c: nat, op: CallAct) | Main(cmd: MainAct)

  /** notify_one wakes some sleeper, any one, unless nobody sleeps. */
  predicate WakesWorker(s: State, woken: Option<nat>)
  {
    match woken
    case Some(w) => w < |s.workers| && s.workers[w].Asleep?
    case None => forall w | 0 <= w < |s.workers| :: !s.workers[w].Asleep?
  }

  predicate WakesCall(s: State, woken: Option<nat>)
  {
    match woken
    case Some(c) => c < |s.calls| && s.calls[c].pc.CAsleep?
    case None => forall c | 0 <= c < |s.calls| :: !s.calls[c].pc.CAsleep?
  }

  predicate WorkerEnabled(k: Config, s: State, w: nat, act: Act)
  {
    && w < |s.workers|
    && var pc := s.workers[w];
       match act
       case Acquire => pc.Wanting? && s.lock.Free?
       case Test => pc.Checking?
       case Sleep => pc.Dozing?
       case Spurious => pc.Asleep?
       case Timeout => pc.Asleep? && k.mode.Cache?
       case ReadRunning => pc.Expired?
       case Reap => pc.Reaping?
       case Proceed(woken) => pc.Passed? && WakesCall(s, woken)
       case Invoke => pc.Holding?
       case Finish => pc.Running?
       case ReadIdle => pc.GuardIdle?
       case ReadQueue => pc.GuardQueue?
       case ReadCount => pc.GuardCount?
       case Enrol => pc.Enrolling?
  }

  predicate CallEnabled(s: State, c: nat, op: CallAct)
  {
    && c < |s.calls|
    && var pc := s.calls[c].pc;
       match op
       case CallAcquire => pc.CWanting? && s.lock.Free?
       case CallTest => pc.CChecking?
       case CallSleep => pc.CDozing?
       case CallSpurious => pc.CAsleep?
       case CallTimeout => pc.CAsleep? && s.calls[c].timed
       case Admit => pc.CPassed?
       case Push => pc.CAdmitted?
       case Signal(woken) => pc.CSignalling? && WakesWorker(s, woken)
  }

  predicate MainEnabled(k: Config, s: State, cmd: MainAct)
  {
    match cmd
    case Begin(_) => true
    case SetRunning => s.starter.NotStarted?
    case Launch => s.starter.Launching? && s.starter.launched < k.initThreads
    case CountLaunched => s.starter.Counting?
    case Flip => s.running && s.starter == Launching(k.initThreads) && s.stopper.NotCalled?
    case Fence => s.stopper.Flipped? && s.lock.Free?
    case Unfence => s.stopper.Fencing?
    case NotifyWorkers => s.stopper.Fenced?
    case NotifyCalls => s.stopper.SignalledWorkers?
    case Join => s.stopper.SignalledCalls? && forall w | 0 <= w < |s.workers| :: Finished(s.workers[w])
    case Clear => s.stopper.Joined? && s.lock.Free?
  }

  predicate Enabled(k: Config, s: State, step: Step)
  {
    match step
    case Thread(w, act) => WorkerEnabled(k, s, w, act)
    case Submit(c, op) => CallEnabled(s, c, op)
    case Main(cmd) => MainEnabled(k, s, cmd)
  }

  function Move(s: State, w: nat, pc: WorkerPc): State
    requires w < |s.workers|
  {
    s.(workers := s.workers[w := pc])
  }

  function MoveCall(s: State, c: nat, pc: CallPc): State
    requires c < |s.calls|
  {
    s.(calls := s.calls[c := s.calls[c].(pc := pc)])
  }

  function WakeWorker(s: State, woken: Option<nat>): State
    requires WakesWorker(s, woken)
  {
    match woken
    case Some(w) => Move(s, w, Wanting(false))
    case None => s
  }

  function WakeCall(s: State, woken: Option<nat>): State
    requires WakesCall(s, woken)
  {
    match woken
    case Some(c) => MoveCall(s, c, CWanting(false))
    case None => s
  }

  /** The predicate both worker waits use. */
  predicate WorkAvailable(s: State)
  {
    s.queue != [] || !s.running
  }

  /** The predicate both submit waits use. */
  predicate RoomAvailable(k: Config, s: State)
  {
    s.taskSize < k.maxQueue || !s.running
  }

  /** What a worker does once past the wait: leave, go round again, or pop a task, which also
      signals notFull and drops the idle counter before the mutex is released. */
  function ProceedEffect(s: State, w: nat, woken: Option<nat>): State
    requires w < |s.workers| && WakesCall(s, woken)
  {
    if !s.running && s.queue == [] then Move(s, w, Exited).(lock := Free)
    else if s.queue == [] then Move(s, w, Wanting(false)).(lock := Free)
    else
      WakeCall(Move(s, w, Holding(s.queue[0])), woken)
        .(queue := s.queue[1..], taskSize := s.taskSize - 1, idle := s.idle - 1,
          removed := s.removed + [s.queue[0]], lock := Free)
  }

  /** After a task: only a Cache pool evaluates the growth guard, the others go round again. */
  function AfterTask(k: Config): WorkerPc
  {
    if k.mode.Cache? then GuardIdle else Wanting(false)
  }

  function WorkerEffect(k: Config, s: State, w: nat, act: Act): State
    requires WorkerEnabled(k, s, w, act)
  {
    match act
    case Acquire => Move(s, w, Checking(s.workers[w].timedOut)).(lock := ByWorker(w))
    case Test =>
      Move(s, w, if WorkAvailable(s) then Passed else if s.workers[w].timedOut then Expired else Dozing)
    case Sleep => Move(s, w, Asleep).(lock := Free)
    case Spurious => Move(s, w, Wanting(false))
    case Timeout => Move(s, w, Wanting(true))
    case ReadRunning => Move(s, w, if s.running then Reaping else Passed)
    case Reap =>
      if s.cur > k.initThreads
      then Move(s, w, Retired).(lock := Free, cur := s.cur - 1, idle := s.idle - 1)
      else Move(s, w, Passed)
    case Proceed(woken) => ProceedEffect(s, w, woken)
    case Invoke => Move(s, w, Running(s.workers[w].task)).(invoked := s.invoked + [s.workers[w].task])
    case Finish => Move(s, w, AfterTask(k)).(idle := s.idle + 1)
    case ReadIdle => Move(s, w, if s.idle == 0 then GuardQueue else Wanting(false))
    case ReadQueue => Move(s, w, if s.taskSize > 0 then GuardCount else Wanting(false))
    case ReadCount =>
      if s.cur < k.maxThreads then Spawn(Move(s, w, Enrolling)) else Move(s, w, Wanting(false))
    case Enrol => Move(s, w, Wanting(false)).(cur := s.cur + 1, idle := s.idle + 1)
  }

  function Spawn(s: State): State
  {
    s.(workers := s.workers + [Wanting(false)])
  }

  function CallEffect(k: Config, s: State, c: nat, op: CallAct): State
    requires CallEnabled(s, c, op)
  {
    match op
    case CallAcquire => MoveCall(s, c, CChecking(s.calls[c].pc.late)).(lock := ByCall(c))
    case CallTest =>
      if RoomAvailable(k, s) then MoveCall(s, c, CPassed)
      else if s.calls[c].pc.late then MoveCall(s, c, CRejected(TimedOut)).(lock := Free)
      else MoveCall(s, c, CDozing)
    case CallSleep => s.(calls := s.calls[c := s.calls[c].(pc := CAsleep, slept := true)], lock := Free)
    case CallSpurious => MoveCall(s, c, CWanting(false))
    case CallTimeout => MoveCall(s, c, CWanting(true))
    case Admit =>
      if s.running then MoveCall(s, c, CAdmitted)
      else MoveCall(s, c, CRejected(Stopped)).(lock := Free)
    case Push =>
      MoveCall(s, c, CSignalling)
        .(lock := Free, queue := s.queue + [c], taskSize := s.taskSize + 1, accepted := s.accepted + [c])
    case Signal(woken) => WakeWorker(MoveCall(s, c, CAccepted), woken)
  }

  function Roused(pc: WorkerPc): WorkerPc
  {
    if pc.Asleep? then Wanting(false) else pc
  }

  function RousedCall(call: Call): Call
  {
    if call.pc.CAsleep? then call.(pc := CWanting(false)) else call
  }

  function MainEffect(k: Config, s: State, cmd: MainAct): State
    requires MainEnabled(k, s, cmd)
  {
    match cmd
    case Begin(timed) =>
      s.(calls := s.calls + [Call(timed, false, if s.running then CWanting(false) else CRejected(NotRunning))])
    case SetRunning => s.(running := true, starter := Launching(0))
    case Launch => Spawn(s).(starter := Counting(s.starter.launched))
    case CountLaunched =>
      s.(cur := s.cur + 1, idle := s.idle + 1, starter := Launching(s.starter.launched + 1))
    case Flip => s.(running := false, stopper := Flipped)
    case Fence => s.(lock := ByStop, stopper := Fencing)
    case Unfence => s.(lock := Free, stopper := Fenced)
    case NotifyWorkers =>
      s.(workers := seq(|s.workers|, i requires 0 <= i < |s.workers| => Roused(s.workers[i])),
         stopper := SignalledWorkers)
    case NotifyCalls =>
      s.(calls := seq(|s.calls|, i requires 0 <= i < |s.calls| => RousedCall(s.calls[i])),
         stopper := SignalledCalls)
    case Join => s.(stopper := Joined)
    case Clear => s.(discarded := s.discarded + s.queue, queue := [], taskSize := 0, stopper := Returned)
  }

  function Apply(k: Config, s: State, step: Step): State
    requires Enabled(k, s, step)
  {
    match step
    case Thread(w, act) => WorkerEffect(k, s, w, act)
    case Submit(c, op) => CallEffect(k, s, c, op)
    case Main(cmd) => MainEffect(k, s, cmd)
  }

  /** `steps` can be taken one after the other from `s`. */
  predicate CanRun(k: Config, s: State, steps: seq<Step>)
    decreases |steps|, 0
  {
    steps == [] ||
    var n := |steps| - 1;
    CanRun(k, s, steps[..n]) && Enabled(k, After(k, s, steps[..n]), steps[n])
  }

  /** The state those steps lead to. */
  function After(k: Config, s: State, steps: seq<Step>): State
    requires CanRun(k, s, steps)
    decreases |steps|, 1
  {
    if steps == [] then s
    else var n := |steps| - 1; Apply(k, After(k, s, steps[..n]), steps[n])
  }

  ghost predicate Reachable(k: Config, s: State)
  {
    exists steps :: CanRun(k, INITIAL, steps) && After(k, INITIAL, steps) == s
  }
}
