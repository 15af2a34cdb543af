/** A task's way from the client's queue through scheduler, broker, worker and pool, and its result's
    way back through broker and Redis. The broker may deliver any published message any number of
    times to any consumer; sends and publishes may be lost; a socket read may return less than was sent;
    Redis commands may fail and entries may expire. */
module Pipeline {
  import opened Wire
  import opened Codec
  import opened Messages
  import opened Transport
  import CodecTheorems

  /** A task as published, with the map order its serialization used. */
  datatype Envelope = Envelope(task: Task, order: seq<Bytes>)

  /** A task in the pending_tasks_ of one worker. */
  datatype Arrival = Arrival(worker: nat, task: Task)

  /** One run of a task: what it gave, when and at which worker, and the result made of it. */
  datatype Execution = Execution(task: Task, outcome: Outcome, at: int, worker: Bytes, result: TaskResult)

  datatype State = State(
    clock: int,
    submitted: map<Bytes, Task>,      // every task ever submitted, by id
    outbox: seq<Task>,                // submit_undistribution_task_
    socket: seq<Envelope>,            // sent to the scheduler, not yet read
    awaiting: seq<Bytes>,             // distribution_taskid_
    cut: set<Bytes>,                  // ids of submissions not read whole
    pending: seq<Task>,               // the scheduler's pending_tasks_
    taskBroker: set<Envelope>,
    received: seq<Arrival>,           // in order of arrival
    pool: seq<Task>,                  // handed to a thread pool, not yet run
    finished: seq<TaskResult>,        // task_result_queue_
    resultBroker: set<TaskResult>,
    redis: map<Bytes, Bytes>,
    results: map<Bytes, TaskResult>,  // the client's taskresult_
    executions: seq<Execution>,       // every run of a task, with its result
    deafWorkers: set<nat>,            // consume loops ended by a message that did not parse
    deafSchedulers: set<nat>)

  function Start(clock: int): State
  {
    State(clock, map[], [], [], [], {}, [], {}, [], [], [], {}, map[], map[], [], {}, {})
  }

  // ---- running a task -------------------------------------------------------------------------

  /** What the command, the function or an exception gave. */
  datatype Outcome = Gave(success: bool, text: Bytes) | Threw(what: Bytes)

  const COMMAND_FAILED: Bytes :=
    [229, 145, 189] + [228, 187, 164] + [230, 137, 167] + [232, 161, 140] +
    [229, 164, 177] + [232, 180, 165]
  const UNSUPPORTED: Bytes :=
    [228, 184, 141] + [230, 148, 175] + [230, 140, 129] + [231, 154, 132] +
    [228, 187, 187] + [229, 138, 161] + [231, 177, 187] + [229, 158, 139]
  const EXCEPTION: Bytes :=
    [230, 137, 167] + [232, 161, 140] + [229, 188, 130] + [229, 184, 184] +
    [58] + [32]

  /** The lambda handed to the pool: outcome and start time by task type, then the common fields. */
  function RunTask(t: Task, outcome: Outcome, now: int, workerId: Bytes): TaskResult
  {
    var r0 := EMPTY_RESULT;
    var r1 :=
      if t.taskType == COMMAND then
        var r := r0.(startExec := now);
        match outcome
        case Threw(what) => r.(errorMessage := EXCEPTION + what, status := FAILED)
        case Gave(_, text) =>
          if text != [] then r.(output := text, status := SUCCESS)
          else r.(errorMessage := COMMAND_FAILED, status := FAILED)
      else if t.taskType == FUNCTION then
        var r := r0.(startExec := now);
        match outcome
        case Threw(what) => r.(errorMessage := EXCEPTION + what, status := FAILED)
        case Gave(success, text) =>
          if success then r.(output := text, status := SUCCESS) else r.(errorMessage := text, status := FAILED)
      else r0.(errorMessage := UNSUPPORTED, status := FAILED);
    r1.(taskId := t.taskId, workerId := workerId,
        startSched := t.startSched, endSched := t.endSched, startWorker := t.startWorker)
  }

  // ---- steps ----------------------------------------------------------------------------------

  datatype Step =
    | Submit(task: Task)
    | Send(order: seq<Bytes>, arrives: bool)
    | Receive(i: nat, n: nat, now: int)
    | Dispatch(order: seq<Bytes>, now: int, arrives: bool)
    | DeliverTask(envelope: Envelope, worker: nat, now: int)
    | Hand(i: nat)
    | Execute(i: nat, outcome: Outcome, now: int, workerId: Bytes)
    | Report(arrives: bool)
    | StoreResult(result: TaskResult, scheduler: nat, stored: bool)
    | Poll(i: nat, answered: bool, deleted: bool)
    | Expire(key: Bytes)

  /** The clock does not run backwards and fits the wire format. */
  predicate Later(s: State, now: int)
  {
    s.clock <= now && InRange(KInt64, now)
  }

  ghost predicate Enabled(s: State, step: Step)
  {
    match step
    case Submit(task) => ValidTask(task) && task.taskId !in s.submitted
    case Send(order, arrives) => s.outbox != [] && (arrives ==> TaskSendable(s.outbox[0], order))
    case Receive(i, n, now) =>
      && i < |s.socket| && Later(s, now) && TaskSendable(s.socket[i].task, s.socket[i].order)
      && CanRead(s.socket[i].task, s.socket[i].order, n)
    case Dispatch(order, now, arrives) =>
      && s.pending != [] && Later(s, now)
      && (arrives ==> TaskSendable(s.pending[0].(endSched := now), order))
    case DeliverTask(envelope, worker, now) =>
      && envelope in s.taskBroker && worker !in s.deafWorkers
      && Later(s, now) && TaskSendable(envelope.task, envelope.order)
    case Hand(i) => i < |s.received| && forall j | 0 <= j < i :: s.received[j].worker != s.received[i].worker
    case Execute(i, outcome, now, workerId) => i < |s.pool| && Later(s, now)
    case Report(arrives) => s.finished != [] && (arrives ==> ResultSendable(s.finished[0]))
    case StoreResult(result, scheduler, stored) =>
      result in s.resultBroker && scheduler !in s.deafSchedulers && ResultSendable(result)
    case Poll(i, answered, deleted) => i < |s.awaiting|
    case Expire(key) => true
  }

  function Remove<T>(s: seq<T>, i: nat): seq<T>
    requires i < |s|
  {
    s[..i] + s[i + 1..]
  }

  function Without(ids: seq<Bytes>, id: Bytes): seq<Bytes>
  {
    if ids == [] then [] else (if ids[0] == id then [] else [ids[0]]) + Without(ids[1..], id)
  }

  /** The stamps the scheduler puts on a task it has received. */
  function Stamped(t: Task, now: int): Task
  {
    t.(startSched := now, endSched := 0, startWorker := 0, status := PENDING)
  }

  ghost function ReceiveEffect(s: State, i: nat, n: nat, now: int): State
    requires i < |s.socket| && TaskSendable(s.socket[i].task, s.socket[i].order)
    requires CanRead(s.socket[i].task, s.socket[i].order, n)
  {
    var e := s.socket[i];
    var seen := SocketRead(e.task, e.order, n);
    var s' := s.(socket := Remove(s.socket, i), clock := now,
                 cut := if n < |TaskBytes(e.task, e.order)| then s.cut + {e.task.taskId} else s.cut);
    var parsed := TaskParse(seen);
    if seen != [] && parsed.Parsed? then s'.(pending := s.pending + [Stamped(parsed.value, now)]) else s'
  }

  /** A message that does not parse throws out of the consume loop and ends it. */
  ghost function DeliverEffect(s: State, envelope: Envelope, worker: nat, now: int): State
    requires TaskSendable(envelope.task, envelope.order)
  {
    var parsed := TaskParse(CString(TaskBytes(envelope.task, envelope.order)));
    var s' := s.(clock := now);
    if parsed.Parsed? then s'.(received := s.received + [Arrival(worker, parsed.value.(startWorker := now))])
    else s'.(deafWorkers := s.deafWorkers + {worker})
  }

  ghost function StoreEffect(s: State, result: TaskResult, scheduler: nat, stored: bool): State
    requires ResultSendable(result)
  {
    var parsed := ResultParse(CString(ResultBytes(result)));
    if !parsed.Parsed? then s.(deafSchedulers := s.deafSchedulers + {scheduler})
    else if stored && ResultSendable(parsed.value)
    then s.(redis := s.redis[CString(parsed.value.taskId) := CString(ResultBytes(parsed.value))])
    else s
  }

  /** consume_task_resultfunction for one id: fetch, delete, parse, store. */
  ghost function PollEffect(s: State, id: Bytes, answered: bool, deleted: bool): State
  {
    var key := CString(id);
    var got := if answered && key in s.redis then s.redis[key] else NO_RESULT;
    if got == NO_RESULT then s
    else
      var s' := s.(redis := if deleted then s.redis - {key} else s.redis);
      match ResultParse(got)
      case Parsed(r) => s'.(results := s.results[id := r], awaiting := Without(s.awaiting, id))
      case _ => s'
  }

  ghost function Apply(s: State, step: Step): State
    requires Enabled(s, step)
  {
    match step
    case Submit(task) => s.(submitted := s.submitted[task.taskId := task], outbox := s.outbox + [task])
    case Send(order, arrives) =>
      s.(outbox := s.outbox[1..], awaiting := s.awaiting + [s.outbox[0].taskId],
         socket := if arrives then s.socket + [Envelope(s.outbox[0], order)] else s.socket)
    case Receive(i, n, now) => ReceiveEffect(s, i, n, now)
    case Dispatch(order, now, arrives) =>
      s.(clock := now, pending := s.pending[1..],
         taskBroker := if arrives then s.taskBroker + {Envelope(s.pending[0].(endSched := now), order)} else s.taskBroker)
    case DeliverTask(envelope, worker, now) => DeliverEffect(s, envelope, worker, now)
    case Hand(i) => s.(received := Remove(s.received, i), pool := s.pool + [s.received[i].task])
    case Execute(i, outcome, now, workerId) =>
      var r := RunTask(s.pool[i], outcome, now, workerId);
      s.(clock := now, pool := Remove(s.pool, i), finished := s.finished + [r],
         executions := s.executions + [Execution(s.pool[i], outcome, now, workerId, r)])
    case Report(arrives) =>
      s.(finished := s.finished[1..],
         resultBroker := if arrives then s.resultBroker + {s.finished[0]} else s.resultBroker)
    case StoreResult(result, scheduler, stored) => StoreEffect(s, result, scheduler, stored)
    case Poll(i, answered, deleted) => PollEffect(s, s.awaiting[i], answered, deleted)
    case Expire(key) => s.(redis := s.redis - {key})
  }

  ghost predicate CanRun(clock: int, steps: seq<Step>)
    decreases |steps|, 0
  {
    steps == [] ||
    var n := |steps| - 1;
    CanRun(clock, steps[..n]) && Enabled(After(clock, steps[..n]), steps[n])
  }

  ghost function After(clock: int, steps: seq<Step>): State
    requires CanRun(clock, steps)
    decreases |steps|, 1
  {
    if steps == [] then Start(clock)
    else var n := |steps| - 1; Apply(After(clock, steps[..n]), steps[n])
  }

  // ---- invariant ------------------------------------------------------------------------------

  predicate SameWork(t: Task, other: Task)
  {
    t.taskType == other.taskType && t.content == other.content && t.metadata == other.metadata && t.workerId == other.workerId
  }

  /** The task was submitted under its id and is pending; it is part of that work, and all of it unless the submission
      was not read whole. */
  ghost predicate Genuine(submitted: map<Bytes, Task>, cut: set<Bytes>, t: Task)
  {
    && t.taskId in submitted && t.status == PENDING
    && PartTask(t, submitted[t.taskId])
    && (t.taskId !in cut ==> SameWork(t, submitted[t.taskId]))
  }

  predicate Scheduled(t: Task, clock: int) { t.startSched <= clock && t.endSched == 0 && t.startWorker == 0 }
  predicate Published(t: Task, clock: int) { t.startSched <= t.endSched <= clock }
  predicate AtWorker(t: Task, clock: int) { t.startSched <= t.endSched <= t.startWorker <= clock }

  predicate Timed(t: Task) { t.taskType == COMMAND || t.taskType == FUNCTION }

  /** A command succeeds by printing something, a function by saying so. */
  predicate Succeeds(t: Task, outcome: Outcome)
  {
    outcome.Gave? && ((t.taskType == COMMAND && outcome.text != []) || (t.taskType == FUNCTION && outcome.success))
  }

  function FailureText(t: Task, outcome: Outcome): Bytes
  {
    if !Timed(t) then UNSUPPORTED
    else match outcome
      case Threw(what) => EXCEPTION + what
      case Gave(_, text) => if t.taskType == COMMAND then COMMAND_FAILED else text
  }

  /** The result tells what the run gave, whose it was, and when. */
  predicate Tells(e: Execution)
  {
    && (e.result.status == SUCCESS <==> Succeeds(e.task, e.outcome))
    && (e.result.status == FAILED <==> !Succeeds(e.task, e.outcome))
    && e.result.output == (if Succeeds(e.task, e.outcome) then e.outcome.text else [])
    && e.result.errorMessage == (if Succeeds(e.task, e.outcome) then [] else FailureText(e.task, e.outcome))
    && e.result.taskId == e.task.taskId && e.result.workerId == e.worker
    && e.result.startSched == e.task.startSched && e.result.endSched == e.task.endSched
    && e.result.startWorker == e.task.startWorker
    && e.result.startExec == (if Timed(e.task) then e.at else 0)
    && e.result.endWorker == 0 && e.result.durationMs == 0
  }

  /** A result is what running a genuine task gave, with its stamps in order. */
  ghost predicate GoodExecution(submitted: map<Bytes, Task>, cut: set<Bytes>, e: Execution)
  {
    && Genuine(submitted, cut, e.task)
    && Tells(e)
    && e.result.startSched <= e.result.endSched <= e.result.startWorker
    && (Timed(e.task) ==> e.result.startWorker <= e.result.startExec)
  }

  ghost predicate Executed(executions: seq<Execution>, r: TaskResult)
  {
    exists i | 0 <= i < |executions| :: executions[i].result == r
  }

  /** A Redis value is the C string of an executed result that travels, under that result's id. */
  ghost predicate Backs(executions: seq<Execution>, r: TaskResult, key: Bytes, value: Bytes)
  {
    && Executed(executions, r) && ResultSendable(r) && ResultTravels(r)
    && r.taskId == key && value == CString(ResultBytes(r))
  }

  ghost predicate GoodEntry(executions: seq<Execution>, key: Bytes, value: Bytes)
  {
    exists r :: Backs(executions, r, key, value)
  }

  ghost predicate FromClient(submitted: map<Bytes, Task>, outbox: seq<Task>, socket: seq<Envelope>)
  {
    && (forall t | t in outbox :: t.taskId in submitted && submitted[t.taskId] == t)
    && (forall e | e in socket :: e.task.taskId in submitted && submitted[e.task.taskId] == e.task)
  }

  ghost predicate AtScheduler(submitted: map<Bytes, Task>, cut: set<Bytes>, ts: seq<Task>, clock: int)
  {
    forall t | t in ts :: Genuine(submitted, cut, t) && Scheduled(t, clock)
  }

  ghost predicate AtBroker(submitted: map<Bytes, Task>, cut: set<Bytes>, es: set<Envelope>, clock: int)
  {
    forall e | e in es :: Genuine(submitted, cut, e.task) && Published(e.task, clock)
  }

  ghost predicate AtWorkers(submitted: map<Bytes, Task>, cut: set<Bytes>, ts: seq<Task>, clock: int)
  {
    forall t | t in ts :: Genuine(submitted, cut, t) && AtWorker(t, clock)
  }

  ghost predicate AllArrived(submitted: map<Bytes, Task>, cut: set<Bytes>, arrivals: seq<Arrival>, clock: int)
  {
    forall a | a in arrivals :: Genuine(submitted, cut, a.task) && AtWorker(a.task, clock)
  }

  ghost predicate GoodHistory(submitted: map<Bytes, Task>, cut: set<Bytes>, executions: seq<Execution>)
  {
    forall i | 0 <= i < |executions| :: GoodExecution(submitted, cut, executions[i])
  }

  ghost predicate Backed(executions: seq<Execution>, finished: seq<TaskResult>, published: set<TaskResult>)
  {
    && (forall r | r in finished :: Executed(executions, r))
    && (forall r | r in published :: Executed(executions, r))
  }

  ghost predicate StoredOk(executions: seq<Execution>, redis: map<Bytes, Bytes>)
  {
    forall key | key in redis :: GoodEntry(executions, key, redis[key])
  }

  ghost predicate KnownOk(executions: seq<Execution>, results: map<Bytes, TaskResult>)
  {
    forall id | id in results :: Executed(executions, results[id]) && results[id].taskId == CString(id)
  }

  ghost predicate Inv(s: State)
  {
    && FromClient(s.submitted, s.outbox, s.socket)
    && AtScheduler(s.submitted, s.cut, s.pending, s.clock)
    && AtBroker(s.submitted, s.cut, s.taskBroker, s.clock)
    && AllArrived(s.submitted, s.cut, s.received, s.clock) && AtWorkers(s.submitted, s.cut, s.pool, s.clock)
    && GoodHistory(s.submitted, s.cut, s.executions)
    && Backed(s.executions, s.finished, s.resultBroker)
    && StoredOk(s.executions, s.redis)
    && KnownOk(s.executions, s.results)
  }

  // ---- preservation -----------------------------------------------------------------------------

  /** Time passing breaks no stamp order. */
  lemma Wait(s: State, now: int)
    requires Inv(s) && s.clock <= now
    ensures AtScheduler(s.submitted, s.cut, s.pending, now) && AtBroker(s.submitted, s.cut, s.taskBroker, now)
    ensures AllArrived(s.submitted, s.cut, s.received, now) && AtWorkers(s.submitted, s.cut, s.pool, now)
  {
    hide Genuine;
  }

  /** More submissions and more cut ones leave every task as genuine as it was. */
  lemma Lift(s: State, submitted: map<Bytes, Task>, cut: set<Bytes>)
    requires forall id | id in s.submitted :: id in submitted && submitted[id] == s.submitted[id]
    requires s.cut <= cut
    requires AtScheduler(s.submitted, s.cut, s.pending, s.clock) && AtBroker(s.submitted, s.cut, s.taskBroker, s.clock)
    requires AllArrived(s.submitted, s.cut, s.received, s.clock) && AtWorkers(s.submitted, s.cut, s.pool, s.clock)
    requires GoodHistory(s.submitted, s.cut, s.executions)
    ensures AtScheduler(submitted, cut, s.pending, s.clock) && AtBroker(submitted, cut, s.taskBroker, s.clock)
    ensures AllArrived(submitted, cut, s.received, s.clock) && AtWorkers(submitted, cut, s.pool, s.clock)
    ensures GoodHistory(submitted, cut, s.executions)
  {
    hide SameWork, PartTask, Tells;
    forall t | Genuine(s.submitted, s.cut, t) ensures Genuine(submitted, cut, t) {}
    forall i | 0 <= i < |s.executions| ensures GoodExecution(submitted, cut, s.executions[i]) {
      assert GoodExecution(s.submitted, s.cut, s.executions[i]);
    }
  }

  lemma SubmitKeeps(s: State, task: Task)
    requires Inv(s) && task.taskId !in s.submitted
    ensures Inv(s.(submitted := s.submitted[task.taskId := task], outbox := s.outbox + [task]))
  {
    hide AtScheduler, AtBroker, AllArrived, AtWorkers, GoodHistory, Executed, GoodEntry, CString;
    Lift(s, s.submitted[task.taskId := task], s.cut);
  }

  lemma SendKeeps(s: State, order: seq<Bytes>, arrives: bool)
    requires Inv(s) && Enabled(s, Send(order, arrives))
    ensures Inv(Apply(s, Send(order, arrives)))
  {
    hide Genuine, GoodExecution, Executed, GoodEntry, CString, TaskSendable;
  }

  lemma ReceiveKeeps(s: State, i: nat, n: nat, now: int)
    requires Inv(s) && Enabled(s, Receive(i, n, now))
    ensures Inv(ReceiveEffect(s, i, n, now))
  {
    hide GoodHistory, Executed, GoodEntry, CString, TaskSendable, TaskParse, TaskUtf8, SocketRead;
    Wait(s, now);
    var e := s.socket[i];
    var cut := if n < |TaskBytes(e.task, e.order)| then s.cut + {e.task.taskId} else s.cut;
    Lift(s.(clock := now), s.submitted, cut);
    var seen := SocketRead(e.task, e.order, n);
    var parsed := TaskParse(seen);
    if seen != [] && parsed.Parsed? {
      ReadGenuine(e, n, parsed.value);
      assert e in s.socket;
      assert Genuine(s.submitted, cut, Stamped(parsed.value, now));
    }
  }

  lemma ReadGenuine(e: Envelope, n: nat, t: Task)
    requires TaskSendable(e.task, e.order) && CanRead(e.task, e.order, n)
    requires SocketRead(e.task, e.order, n) != [] && TaskParse(SocketRead(e.task, e.order, n)) == Parsed(t)
    ensures t.taskId == e.task.taskId && PartTask(t, e.task) && (n == |TaskBytes(e.task, e.order)| ==> t == e.task)
  {
    hide TaskSendable, TaskParse, TaskUtf8, Serialize, PartTask;
    SocketReceipt(e.task, e.order, n);
    if n == |TaskBytes(e.task, e.order)| {
      WholeRead(e.task, e.order);
    }
  }

  /** A submission read whole is the task, or does not parse. */
  lemma WholeRead(t: Task, order: seq<Bytes>)
    requires TaskSendable(t, order)
    ensures TaskParse(TaskBytes(t, order)) == if TaskUtf8(t) then Parsed(t) else Malformed
    ensures TaskBytes(t, order)[..|TaskBytes(t, order)|] == TaskBytes(t, order)
  {
    hide ParseMessage, Serialize, CodecTheorems.MessageUtf8, TaskUtf8;
    CodecTheorems.RoundTrip(TASK, TaskMessage(t), order);
    TaskUtf8Means(t);
    TaskBack(t);
  }

  lemma DispatchKeeps(s: State, order: seq<Bytes>, now: int, arrives: bool)
    requires Inv(s) && Enabled(s, Dispatch(order, now, arrives))
    ensures Inv(Apply(s, Dispatch(order, now, arrives)))
  {
    hide GoodExecution, Executed, GoodEntry, CString, TaskSendable;
    Wait(s, now);
    assert s.pending[0] in s.pending;
    assert Genuine(s.submitted, s.cut, s.pending[0].(endSched := now));
  }

  lemma DeliverKeeps(s: State, envelope: Envelope, worker: nat, now: int)
    requires Inv(s) && Enabled(s, DeliverTask(envelope, worker, now))
    ensures Inv(DeliverEffect(s, envelope, worker, now))
  {
    hide GoodExecution, Executed, GoodEntry, CString, TaskSendable, TaskParse, TaskBytes, TaskTravels;
    Wait(s, now);
    TaskDelivery(envelope.task, envelope.order);
    assert Genuine(s.submitted, s.cut, envelope.task.(startWorker := now));
  }

  lemma HandKeeps(s: State, i: nat)
    requires Inv(s) && Enabled(s, Hand(i))
    ensures Inv(Apply(s, Hand(i)))
  {
    hide Genuine, GoodExecution, Executed, GoodEntry, CString;
    assert s.received[i] in s.received;
  }

  /** Running a genuine task gives a good execution. */
  lemma RunGivesGood(submitted: map<Bytes, Task>, cut: set<Bytes>, t: Task, outcome: Outcome, now: int, workerId: Bytes)
    requires Genuine(submitted, cut, t) && AtWorker(t, now)
    ensures GoodExecution(submitted, cut, Execution(t, outcome, now, workerId, RunTask(t, outcome, now, workerId)))
  {
    hide Genuine;
  }

  lemma HistoryGrows(executions: seq<Execution>, e: Execution)
    ensures forall r | Executed(executions, r) :: Executed(executions + [e], r)
    ensures Executed(executions + [e], e.result)
  {
    forall r | Executed(executions, r) ensures Executed(executions + [e], r) {
      var i :| 0 <= i < |executions| && executions[i].result == r;
      assert (executions + [e])[i].result == r;
    }
    assert (executions + [e])[|executions|].result == e.result;
  }

  lemma StoredGrows(executions: seq<Execution>, e: Execution, redis: map<Bytes, Bytes>)
    requires StoredOk(executions, redis)
    ensures StoredOk(executions + [e], redis)
  {
    hide Executed, ResultSendable, ResultTravels, CString;
    HistoryGrows(executions, e);
    forall key | key in redis ensures GoodEntry(executions + [e], key, redis[key]) {
      var r :| Backs(executions, r, key, redis[key]);
      assert Backs(executions + [e], r, key, redis[key]);
    }
  }

  lemma ExecuteKeeps(s: State, i: nat, outcome: Outcome, now: int, workerId: Bytes)
    requires Inv(s) && Enabled(s, Execute(i, outcome, now, workerId))
    ensures Inv(Apply(s, Execute(i, outcome, now, workerId)))
  {
    hide Genuine, GoodExecution, Executed, GoodEntry, CString, RunTask;
    Wait(s, now);
    assert s.pool[i] in s.pool;
    RunGivesGood(s.submitted, s.cut, s.pool[i], outcome, now, workerId);
    var e := Execution(s.pool[i], outcome, now, workerId, RunTask(s.pool[i], outcome, now, workerId));
    HistoryGrows(s.executions, e);
    StoredGrows(s.executions, e, s.redis);
  }

  lemma ReportKeeps(s: State, arrives: bool)
    requires Inv(s) && Enabled(s, Report(arrives))
    ensures Inv(Apply(s, Report(arrives)))
  {
    hide Genuine, GoodExecution, Executed, GoodEntry, CString, ResultSendable;
    assert s.finished[0] in s.finished;
  }

  lemma StoreKeeps(s: State, result: TaskResult, scheduler: nat, stored: bool)
    requires Inv(s) && result in s.resultBroker && ResultSendable(result)
    ensures Inv(StoreEffect(s, result, scheduler, stored))
  {
    hide Genuine, GoodExecution, Executed, ResultSendable, ResultParse, ResultBytes, CString;
    ResultDelivery(result);
    if ResultTravels(result) {
      CStringWhole(result.taskId);
      var key, value := CString(result.taskId), CString(ResultBytes(result));
      assert Backs(s.executions, result, key, value);
      var redis := s.redis[key := value];
      forall k | k in redis ensures GoodEntry(s.executions, k, redis[k]) {
        if k != key {
          assert GoodEntry(s.executions, k, s.redis[k]);
        }
      }
    }
  }

  lemma PollKeeps(s: State, id: Bytes, answered: bool, deleted: bool)
    requires Inv(s)
    ensures Inv(PollEffect(s, id, answered, deleted))
  {
    hide Genuine, GoodExecution, Executed, ResultSendable, ResultTravels, ResultParse, ResultBytes, CString, Without;
    var key := CString(id);
    if key in s.redis {
      assert GoodEntry(s.executions, key, s.redis[key]);
      var r :| Backs(s.executions, r, key, s.redis[key]);
      ResultDelivery(r);
      var redis := s.redis - {key};
      forall k | k in redis ensures GoodEntry(s.executions, k, redis[k]) {
        assert GoodEntry(s.executions, k, s.redis[k]);
      }
    }
  }

  lemma StepKeeps(s: State, step: Step)
    requires Inv(s) && Enabled(s, step)
    ensures Inv(Apply(s, step))
  {
    hide Inv;
    match step
    case Submit(task) => SubmitKeeps(s, task);
    case Send(order, arrives) => SendKeeps(s, order, arrives);
    case Receive(i, n, now) => ReceiveKeeps(s, i, n, now);
    case Dispatch(order, now, arrives) => DispatchKeeps(s, order, now, arrives);
    case DeliverTask(envelope, worker, now) => DeliverKeeps(s, envelope, worker, now);
    case Hand(i) => HandKeeps(s, i);
    case Execute(i, outcome, now, workerId) => ExecuteKeeps(s, i, outcome, now, workerId);
    case Report(arrives) => ReportKeeps(s, arrives);
    case StoreResult(result, scheduler, stored) => StoreKeeps(s, result, scheduler, stored);
    case Poll(i, answered, deleted) => PollKeeps(s, s.awaiting[i], answered, deleted);
    case Expire(key) => ExpireKeeps(s, key);
  }

  lemma ExpireKeeps(s: State, key: Bytes)
    requires Inv(s)
    ensures Inv(s.(redis := s.redis - {key}))
  {
    hide Genuine, GoodExecution, Executed, GoodEntry, CString;
  }

  lemma {:induction false} RunKeeps(clock: int, steps: seq<Step>)
    requires CanRun(clock, steps)
    ensures Inv(After(clock, steps))
  {
    hide Apply, Enabled;
    if steps != [] {
      var n := |steps| - 1;
      RunKeeps(clock, steps[..n]);
      StepKeeps(After(clock, steps[..n]), steps[n]);
    }
  }

  // ---- provenance -----------------------------------------------------------------------------

  /** In every run with unique task ids, whatever the broker redelivers: a result the client stores
      under an id comes from running the task submitted under that id up to its first NUL, with part of
      the submitted work, all of it if the submission was read whole; it tells what that run gave, and for
      commands and functions its stamps are in order. */
  lemma Provenance(clock: int, steps: seq<Step>, id: Bytes) returns (e: Execution)
    requires CanRun(clock, steps) && id in After(clock, steps).results
    ensures var s := After(clock, steps); var r := s.results[id];
      && e in s.executions && e.result == r
      && e.task.taskId == r.taskId == CString(id)
      && CString(id) in s.submitted && e.task.status == PENDING
      && PartTask(e.task, s.submitted[CString(id)])
      && (CString(id) !in s.cut ==> SameWork(e.task, s.submitted[CString(id)]))
      && Tells(e)
      && r.startSched <= r.endSched <= r.startWorker
      && (Timed(e.task) ==> r.startWorker <= r.startExec)
  {
    hide CString, SameWork, PartTask, Tells;
    RunKeeps(clock, steps);
    var s := After(clock, steps);
    var r := s.results[id];
    assert Executed(s.executions, r);
    var i :| 0 <= i < |s.executions| && s.executions[i].result == r;
    e := s.executions[i];
    assert GoodExecution(s.submitted, s.cut, s.executions[i]);
    TellsId(e);
  }

  lemma TellsId(e: Execution)
    requires Tells(e)
    ensures e.result.taskId == e.task.taskId
  {}

  /** So the result under an id is that id's own exactly when the id has no NUL. */
  lemma ProvenanceExact(clock: int, steps: seq<Step>, id: Bytes)
    requires CanRun(clock, steps) && id in After(clock, steps).results
    ensures After(clock, steps).results[id].taskId == id <==> 0 !in id
  {
    var e := Provenance(clock, steps, id);
    CStringWhole(id);
  }

  // ---- looking back along a run -----------------------------------------------------------------

  lemma {:induction false} RunsPrefix(clock: int, steps: seq<Step>, k: nat)
    requires CanRun(clock, steps) && k <= |steps|
    ensures CanRun(clock, steps[..k])
  {
    hide Enabled, Apply;
    if k == |steps| {
      assert steps[..k] == steps;
    } else {
      var n := |steps| - 1;
      RunsPrefix(clock, steps[..n], k);
      assert steps[..n][..k] == steps[..k];
    }
  }

  lemma StepAt(clock: int, steps: seq<Step>, k: nat)
    requires CanRun(clock, steps) && k < |steps|
    ensures CanRun(clock, steps[..k]) && CanRun(clock, steps[..k + 1]) && Enabled(After(clock, steps[..k]), steps[k])
    ensures After(clock, steps[..k + 1]) == Apply(After(clock, steps[..k]), steps[k])
  {
    hide Enabled, Apply;
    RunsPrefix(clock, steps, k + 1);
    assert steps[..k + 1][..k] == steps[..k];
  }

  lemma Extend(clock: int, steps: seq<Step>, step: Step)
    requires CanRun(clock, steps) && Enabled(After(clock, steps), step)
    ensures CanRun(clock, steps + [step]) && After(clock, steps + [step]) == Apply(After(clock, steps), step)
  {
    hide Enabled, Apply;
    assert (steps + [step])[..|steps|] == steps;
  }

  // ---- submissions read in part -------------------------------------------------------------------

  /** Step j reads less of this id's submission than was sent. */
  ghost predicate CutAt(clock: int, steps: seq<Step>, j: nat, id: Bytes)
  {
    && j < |steps| && CanRun(clock, steps[..j]) && steps[j].Receive? && Enabled(After(clock, steps[..j]), steps[j])
    && var e := After(clock, steps[..j]).socket[steps[j].i];
       e.task.taskId == id && steps[j].n < |TaskBytes(e.task, e.order)|
  }

  /** The cut ids are exactly those with a read shorter than their submission. */
  lemma {:induction false} CutMeans(clock: int, steps: seq<Step>, id: Bytes)
    requires CanRun(clock, steps)
    ensures id in After(clock, steps).cut <==> exists j: nat :: CutAt(clock, steps, j, id)
  {
    hide Enabled, Apply, TaskSendable, TaskBytes;
    if steps != [] {
      var n := |steps| - 1;
      var front := steps[..n];
      CutMeans(clock, front, id);
      CutStep(After(clock, front), steps[n], id);
      forall j: nat | j < n ensures CutAt(clock, steps, j, id) <==> CutAt(clock, front, j, id) {
        assert front[..j] == steps[..j];
      }
      assert CutAt(clock, steps, n, id) <==> CutsNow(After(clock, front), steps[n], id);
    }
  }

  ghost predicate CutsNow(s: State, step: Step, id: Bytes)
    requires Enabled(s, step)
  {
    && step.Receive?
    && var e := s.socket[step.i]; e.task.taskId == id && step.n < |TaskBytes(e.task, e.order)|
  }

  lemma CutStep(s: State, step: Step, id: Bytes)
    requires Enabled(s, step)
    ensures id in Apply(s, step).cut <==> id in s.cut || CutsNow(s, step, id)
  {
    hide TaskSendable, TaskBytes, TaskParse, ResultParse, ResultSendable, ResultBytes, CString, RunTask, Without;
  }

  // ---- consume loops that end -----------------------------------------------------------------------

  /** The step hands this worker a task that does not travel. */
  predicate EndsWorker(step: Step, worker: nat)
  {
    step.DeliverTask? && step.worker == worker && !TaskTravels(step.envelope.task)
  }

  /** The step hands this scheduler a result that does not travel. */
  predicate EndsScheduler(step: Step, scheduler: nat)
  {
    step.StoreResult? && step.scheduler == scheduler && !ResultTravels(step.result)
  }

  lemma DeafStep(s: State, step: Step, consumer: nat)
    requires Enabled(s, step)
    ensures consumer in Apply(s, step).deafWorkers <==> consumer in s.deafWorkers || EndsWorker(step, consumer)
    ensures consumer in Apply(s, step).deafSchedulers <==> consumer in s.deafSchedulers || EndsScheduler(step, consumer)
  {
    hide TaskSendable, TaskBytes, TaskParse, ResultParse, ResultSendable, ResultBytes, CString, RunTask, Without,
      TaskTravels, ResultTravels;
    if step.DeliverTask? {
      TaskDelivery(step.envelope.task, step.envelope.order);
    } else if step.StoreResult? {
      ResultDelivery(step.result);
    }
  }

  /** A consume loop has ended exactly when it was handed a message that does not travel. */
  lemma {:induction false} DeafMeans(clock: int, steps: seq<Step>, consumer: nat)
    requires CanRun(clock, steps)
    ensures consumer in After(clock, steps).deafWorkers <==>
            exists j: nat | j < |steps| :: EndsWorker(steps[j], consumer)
    ensures consumer in After(clock, steps).deafSchedulers <==>
            exists j: nat | j < |steps| :: EndsScheduler(steps[j], consumer)
  {
    hide Enabled, Apply, EndsWorker, EndsScheduler;
    if steps != [] {
      var n := |steps| - 1;
      var front := steps[..n];
      DeafMeans(clock, front, consumer);
      DeafStep(After(clock, front), steps[n], consumer);
      assert forall j | 0 <= j < n :: front[j] == steps[j];
    }
  }

  /** After the first task that does not travel, that worker receives nothing more; after the first such
      result, that scheduler stores nothing more. */
  lemma LoopEnds(clock: int, steps: seq<Step>, j: nat, k: nat, consumer: nat)
    requires CanRun(clock, steps) && j < k < |steps|
    ensures EndsWorker(steps[j], consumer) ==> !(steps[k].DeliverTask? && steps[k].worker == consumer)
    ensures EndsScheduler(steps[j], consumer) ==> !(steps[k].StoreResult? && steps[k].scheduler == consumer)
  {
    hide CanRun, After, EndsWorker, EndsScheduler, TaskSendable, ResultSendable;
    StepAt(clock, steps, k);
    DeafMeans(clock, steps[..k], consumer);
    assert steps[..k][j] == steps[j];
  }
}
