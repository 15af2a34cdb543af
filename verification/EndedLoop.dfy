/** Messages that end a consume loop: a task the worker cannot parse, and a result the scheduler cannot. */
module EndedLoop {
  import opened Wire
  import opened Codec
  import opened Messages
  import opened Transport
  import opened Pipeline
  import opened ShortMessages

  /** Small commands with UTF-8 strings, as they stand when nothing has been stamped yet. */
  predicate Plain(t: Task)
  {
    && t == EMPTY_TASK.(taskId := t.taskId, taskType := COMMAND, content := t.content)
    && Short(t.taskId) && Short(t.content) && TaskUtf8(t)
  }

  lemma PlainReceived(t: Task)
    requires Plain(t)
    ensures TaskSendable(t, []) && CanRead(t, [], |TaskBytes(t, [])|)
    ensures var seen := SocketRead(t, [], |TaskBytes(t, [])|); seen != [] && TaskParse(seen) == Parsed(t)
    ensures Stamped(t, 0) == t && ValidTask(t)
  {
    hide TaskSendable, TaskBytes, TaskParse, TaskUtf8;
    ShortTask(t);
    WholeRead(t, []);
    EmptyBytes(t, []);
  }

  /** Any such command can be submitted, read whole and published. */
  lemma ToBroker(t: Task) returns (steps: seq<Step>)
    requires Plain(t)
    ensures CanRun(0, steps)
    ensures var s := After(0, steps);
      && s.submitted == map[t.taskId := t] && s.taskBroker == {Envelope(t, [])} && s.clock == 0
      && s.received == [] && s.pool == [] && s.finished == [] && s.resultBroker == {}
      && s.deafWorkers == {} && s.deafSchedulers == {}
  {
    hide TaskSendable, TaskParse, SocketRead, TaskBytes, CanRead, Plain, Stamped, ValidTask;
    PlainReceived(t);
    Unstamped(t);
    steps := [];
    Extend(0, steps, Submit(t));
    steps := steps + [Submit(t)];
    Extend(0, steps, Send([], true));
    steps := steps + [Send([], true)];
    var receive := Receive(0, |TaskBytes(t, [])|, 0);
    Extend(0, steps, receive);
    steps := steps + [receive];
    assert After(0, steps).pending == [t];
    Extend(0, steps, Dispatch([], 0, true));
    steps := steps + [Dispatch([], 0, true)];
  }

  lemma Unstamped(t: Task)
    requires Plain(t)
    ensures t.(endSched := 0) == t && t.(startWorker := 0) == t
  {}

  // ---- a task ---------------------------------------------------------------------------------

  /** A command whose id holds a NUL. */
  const CUT_ID := EMPTY_TASK.(taskId := [97, 0, 98], taskType := COMMAND)

  lemma CutIdPlain()
    ensures Plain(CUT_ID)
  {
    assert ValidUtf8([]);
    assert [97, 0, 98][1..] == [0, 98] && [0, 98][1..] == [98] && [98][1..] == [];
    assert ValidUtf8([98]) && ValidUtf8([0, 98]);
  }

  /** The broker's copy of it ends at the NUL, and the worker's parse rejects it. */
  lemma CutIdRejected()
    ensures TaskSendable(CUT_ID, []) && TaskParse(CString(TaskBytes(CUT_ID, []))) == Malformed
  {
    hide TaskSendable, TaskBytes, TaskParse, CString;
    CutIdPlain();
    PlainReceived(CUT_ID);
    assert CUT_ID.taskId[1] == 0;
    TaskDelivery(CUT_ID, []);
  }

  /** Submitted, published and delivered, it leaves the worker deaf. */
  lemma WorkerGoesDeaf() returns (steps: seq<Step>)
    ensures CanRun(0, steps) && 0 in After(0, steps).deafWorkers
  {
    hide CanRun, After, TaskSendable, TaskBytes, TaskParse, CString;
    CutIdPlain();
    CutIdRejected();
    steps := ToBroker(CUT_ID);
    var deliver := DeliverTask(Envelope(CUT_ID, []), 0, 0);
    Extend(0, steps, deliver);
    steps := steps + [deliver];
  }

  // ---- a result -------------------------------------------------------------------------------

  const RUNS := EMPTY_TASK.(taskId := [97], taskType := COMMAND)

  /** Its command printed one byte that is no UTF-8. */
  const BINARY := RunTask(RUNS, Gave(true, [0xFF]), 0, [])

  lemma RunsTravels()
    ensures Plain(RUNS) && TaskTravels(RUNS)
  {
    assert ValidUtf8([]) && [97][1..] == [];
  }

  lemma BinaryRejected()
    ensures ResultSendable(BINARY) && !ResultTravels(BINARY) && ResultParse(CString(ResultBytes(BINARY))) == Malformed
  {
    hide ResultSendable, ResultBytes, ResultParse, CString;
    assert BINARY.output == [0xFF] && !ValidUtf8([0xFF]);
    ShortResult(BINARY);
    ResultDelivery(BINARY);
  }

  lemma Handed() returns (steps: seq<Step>)
    ensures CanRun(0, steps)
    ensures var s := After(0, steps);
      s.received == [Arrival(0, RUNS)] && s.pool == [] && s.finished == [] && s.clock == 0 && s.deafSchedulers == {}
  {
    hide CanRun, After, TaskSendable, TaskBytes, TaskParse, CString, TaskTravels, Plain;
    RunsTravels();
    PlainReceived(RUNS);
    Unstamped(RUNS);
    TaskDelivery(RUNS, []);
    steps := ToBroker(RUNS);
    var deliver := DeliverTask(Envelope(RUNS, []), 0, 0);
    Extend(0, steps, deliver);
    steps := steps + [deliver];
  }

  /** Run, reported and consumed, it leaves the scheduler deaf. */
  lemma SchedulerGoesDeaf() returns (steps: seq<Step>)
    ensures CanRun(0, steps) && 0 in After(0, steps).deafSchedulers
  {
    hide CanRun, After, ResultSendable, ResultBytes, ResultParse, CString, RunTask, ResultTravels;
    BinaryRejected();
    steps := Handed();
    Extend(0, steps, Hand(0));
    steps := steps + [Hand(0)];
    assert After(0, steps).pool == [RUNS];
    var execute := Execute(0, Gave(true, [0xFF]), 0, []);
    Extend(0, steps, execute);
    steps := steps + [execute];
    assert After(0, steps).finished == [BINARY];
    Extend(0, steps, Report(true));
    steps := steps + [Report(true)];
    Extend(0, steps, StoreResult(BINARY, 0, true));
    steps := steps + [StoreResult(BINARY, 0, true)];
  }
}
