/** The four messages: their fields by name, and their field tables. */
module Messages {
  import opened Wire
  import opened Codec

  // TaskStatus
  const PENDING := 0
  const SUCCESS := 2
  const FAILED := 3

  // TaskType
  const FUNCTION := 0
  const COMMAND := 1

  datatype Task = Task(
    taskId: Bytes,
    taskType: int,
    content: Bytes,
    workerId: Bytes,
    status: int,
    metadata: map<Bytes, Bytes>,
    startSched: int,
    endSched: int,
    startWorker: int)

  const TASK: Schema := [KText, KEnum, KText, KText, KEnum, KMap, KInt64, KInt64, KInt64]

  function TaskMessage(t: Task): Message
  {
    [Text(t.taskId), Num(t.taskType), Text(t.content), Text(t.workerId), Num(t.status), Dict(t.metadata),
     Num(t.startSched), Num(t.endSched), Num(t.startWorker)]
  }

  predicate ValidTask(t: Task)
  {
    && InRange(KEnum, t.taskType) && InRange(KEnum, t.status)
    && InRange(KInt64, t.startSched) && InRange(KInt64, t.endSched) && InRange(KInt64, t.startWorker)
  }

  lemma TaskTyped(t: Task)
    ensures WellTyped(TASK, TaskMessage(t)) <==> ValidTask(t)
  {
    var m := TaskMessage(t);
    assert HasKind(TASK[1], m[1]) == InRange(KEnum, t.taskType) && HasKind(TASK[4], m[4]) == InRange(KEnum, t.status);
    assert HasKind(TASK[6], m[6]) == InRange(KInt64, t.startSched) && HasKind(TASK[7], m[7]) == InRange(KInt64, t.endSched);
    assert HasKind(TASK[8], m[8]) == InRange(KInt64, t.startWorker);
  }

  function TaskOf(msg: Message): (t: Task)
    requires WellTyped(TASK, msg)
    ensures TaskMessage(t) == msg
  {
    Task(msg[0].s, msg[1].n, msg[2].s, msg[3].s, msg[4].n, msg[5].m, msg[6].n, msg[7].n, msg[8].n)
  }

  datatype TaskResult = TaskResult(
    taskId: Bytes,
    status: int,
    output: Bytes,
    errorMessage: Bytes,
    startSched: int,
    endSched: int,
    startWorker: int,
    startExec: int,
    endWorker: int,
    durationMs: int,
    workerId: Bytes)

  const RESULT: Schema :=
    [KText, KEnum, KText, KText, KInt64, KInt64, KInt64, KInt64, KInt64, KInt64, KText]

  function ResultMessage(r: TaskResult): Message
  {
    [Text(r.taskId), Num(r.status), Text(r.output), Text(r.errorMessage), Num(r.startSched), Num(r.endSched),
     Num(r.startWorker), Num(r.startExec), Num(r.endWorker), Num(r.durationMs), Text(r.workerId)]
  }

  predicate ValidResult(r: TaskResult)
  {
    && InRange(KEnum, r.status)
    && InRange(KInt64, r.startSched) && InRange(KInt64, r.endSched) && InRange(KInt64, r.startWorker)
    && InRange(KInt64, r.startExec) && InRange(KInt64, r.endWorker) && InRange(KInt64, r.durationMs)
  }

  lemma ResultTyped(r: TaskResult)
    ensures WellTyped(RESULT, ResultMessage(r)) <==> ValidResult(r)
  {
    var m := ResultMessage(r);
    assert HasKind(RESULT[1], m[1]) == InRange(KEnum, r.status);
    assert HasKind(RESULT[4], m[4]) == InRange(KInt64, r.startSched) && HasKind(RESULT[5], m[5]) == InRange(KInt64, r.endSched);
    assert HasKind(RESULT[6], m[6]) == InRange(KInt64, r.startWorker) && HasKind(RESULT[7], m[7]) == InRange(KInt64, r.startExec);
    assert HasKind(RESULT[8], m[8]) == InRange(KInt64, r.endWorker) && HasKind(RESULT[9], m[9]) == InRange(KInt64, r.durationMs);
  }

  function ResultOf(msg: Message): (r: TaskResult)
    requires WellTyped(RESULT, msg)
    ensures ResultMessage(r) == msg
  {
    TaskResult(msg[0].s, msg[1].n, msg[2].s, msg[3].s, msg[4].n, msg[5].n, msg[6].n, msg[7].n, msg[8].n,
               msg[9].n, msg[10].s)
  }

  /** WorkerHeartbeat and SchedulerHeartbeat have the same fields; only the width of the time stamp
      differs. */
  datatype Heartbeat = Heartbeat(
    nodeId: Bytes,
    nodeIp: Bytes,
    nodePort: int,
    timestamp: int,
    isHealthy: bool,
    dec: map<Bytes, Bytes>)

  const WORKER_HEARTBEAT: Schema := [KText, KText, KInt32, KInt64, KBool, KMap]
  const SCHEDULER_HEARTBEAT: Schema := [KText, KText, KInt32, KInt32, KBool, KMap]

  function HeartbeatSchema(scheduler: bool): (schema: Schema)
    ensures ValidSchema(schema)
  {
    if scheduler then SCHEDULER_HEARTBEAT else WORKER_HEARTBEAT
  }

  function HeartbeatMessage(h: Heartbeat): Message
  {
    [Text(h.nodeId), Text(h.nodeIp), Num(h.nodePort), Num(h.timestamp), Num(if h.isHealthy then 1 else 0), Dict(h.dec)]
  }

  predicate ValidHeartbeat(scheduler: bool, h: Heartbeat)
  {
    InRange(KInt32, h.nodePort) && InRange(if scheduler then KInt32 else KInt64, h.timestamp)
  }

  lemma HeartbeatTyped(scheduler: bool, h: Heartbeat)
    ensures WellTyped(HeartbeatSchema(scheduler), HeartbeatMessage(h)) <==> ValidHeartbeat(scheduler, h)
  {
    var m, schema := HeartbeatMessage(h), HeartbeatSchema(scheduler);
    assert HasKind(schema[2], m[2]) == InRange(KInt32, h.nodePort);
    assert HasKind(schema[3], m[3]) == InRange(if scheduler then KInt32 else KInt64, h.timestamp);
  }

  function HeartbeatOf(scheduler: bool, msg: Message): (h: Heartbeat)
    requires WellTyped(HeartbeatSchema(scheduler), msg)
    ensures HeartbeatMessage(h) == msg
  {
    Heartbeat(msg[0].s, msg[1].s, msg[2].n, msg[3].n, msg[4].n == 1, msg[5].m)
  }

  const EMPTY_TASK := Task([], 0, [], [], 0, map[], 0, 0, 0)
  const EMPTY_RESULT := TaskResult([], 0, [], [], 0, 0, 0, 0, 0, 0, [])
  const EMPTY_HEARTBEAT := Heartbeat([], [], 0, 0, false, map[])

  function TaskParse(s: Bytes): Parse<Task>
  {
    match ParseMessage(TASK, s)
    case Parsed(msg) => Parsed(TaskOf(msg))
    case Malformed => Malformed
    case Unmodelled => Unmodelled
  }

  function ResultParse(s: Bytes): Parse<TaskResult>
  {
    match ParseMessage(RESULT, s)
    case Parsed(msg) => Parsed(ResultOf(msg))
    case Malformed => Malformed
    case Unmodelled => Unmodelled
  }

  function HeartbeatParse(scheduler: bool, s: Bytes): Parse<Heartbeat>
  {
    match ParseMessage(HeartbeatSchema(scheduler), s)
    case Parsed(msg) => Parsed(HeartbeatOf(scheduler, msg))
    case Malformed => Malformed
    case Unmodelled => Unmodelled
  }
}
