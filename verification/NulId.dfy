/** Why ids must be free of NUL: a run of the pipeline in which the client files one task's result under
    another task's id. It is also a complete run, from submission to stored result. */
module NulId {
  import opened Wire
  import opened Codec
  import opened Messages
  import opened ShortMessages
  import opened Transport
  import opened Pipeline

  const HONEST: Bytes := [97]
  const TRICKY: Bytes := [97, 0, 98]

  const FIRST := EMPTY_TASK.(taskId := HONEST, taskType := COMMAND)
  const SECOND := EMPTY_TASK.(taskId := TRICKY, taskType := COMMAND)

  const OUTCOME := RunTask(FIRST, Gave(true, [120]), 0, [])

  lemma TrickyKey()
    ensures CString(TRICKY) == HONEST && CString(HONEST) == HONEST
  {
    assert TRICKY[1..] == [0, 98];
    assert CString([0, 98]) == [];
    assert HONEST[1..] == [];
  }

  /** The first task reaches the broker; the send of the second is lost. */
  lemma Forward() returns (steps: seq<Step>)
    ensures CanRun(0, steps)
    ensures var s := After(0, steps);
      && s.submitted == map[HONEST := FIRST, TRICKY := SECOND]
      && s.awaiting == [HONEST, TRICKY]
      && s.taskBroker == {Envelope(FIRST, [])} && s.clock == 0
      && s.received == [] && s.pool == [] && s.finished == [] && s.resultBroker == {}
      && s.redis == map[] && s.results == map[] && s.deafWorkers == {} && s.deafSchedulers == {}
  {
    hide TaskSendable, TaskParse, SocketRead, TaskBytes, CString;
    ShortTask(FIRST);
    FirstReceived();
    steps := [];
    Extend(0, steps, Submit(FIRST));
    steps := steps + [Submit(FIRST)];
    Extend(0, steps, Submit(SECOND));
    steps := steps + [Submit(SECOND)];
    Extend(0, steps, Send([], true));
    steps := steps + [Send([], true)];
    Extend(0, steps, Send([], false));
    steps := steps + [Send([], false)];
    Extend(0, steps, Receive(0, |TaskBytes(FIRST, [])|, 0));
    steps := steps + [Receive(0, |TaskBytes(FIRST, [])|, 0)];
    assert After(0, steps).pending == [FIRST];
    Extend(0, steps, Dispatch([], 0, true));
    steps := steps + [Dispatch([], 0, true)];
  }

  lemma FirstTravels()
    ensures TaskTravels(FIRST) && ResultTravels(OUTCOME) && ResultSendable(OUTCOME)
  {
    assert ValidUtf8([]);
    assert HONEST[1..] == [] && [120][1..] == [];
    assert ValidUtf8(HONEST) && ValidUtf8([120]);
    ShortResult(OUTCOME);
  }

  lemma FirstReceived()
    ensures TaskSendable(FIRST, []) && CanRead(FIRST, [], |TaskBytes(FIRST, [])|)
    ensures var seen := SocketRead(FIRST, [], |TaskBytes(FIRST, [])|); seen != [] && TaskParse(seen) == Parsed(FIRST)
    ensures Stamped(FIRST, 0) == FIRST
  {
    hide TaskSendable, TaskBytes, TaskParse;
    ShortTask(FIRST);
    FirstTravels();
    assert TaskUtf8(FIRST);
    WholeRead(FIRST, []);
    EmptyBytes(FIRST, []);
  }

  /** The worker receives the first task. */
  lemma Delivered() returns (steps: seq<Step>)
    ensures CanRun(0, steps)
    ensures var s := After(0, steps);
      && s.submitted == map[HONEST := FIRST, TRICKY := SECOND] && s.awaiting == [HONEST, TRICKY]
      && s.received == [Arrival(0, FIRST)] && s.pool == [] && s.finished == [] && s.clock == 0
      && s.resultBroker == {} && s.redis == map[] && s.results == map[] && s.deafSchedulers == {}
  {
    hide CanRun, After, SocketRead, Stamped, TaskSendable, TaskParse, TaskBytes, CString, TaskTravels;
    steps := Forward();
    FirstTravels();
    ShortTask(FIRST);
    TaskDelivery(FIRST, []);
    assert FIRST.(startWorker := 0) == FIRST;
    var deliver := DeliverTask(Envelope(FIRST, []), 0, 0);
    Extend(0, steps, deliver);
    steps := steps + [deliver];
  }

  /** It runs, and its result is published. */
  lemma Back() returns (steps: seq<Step>)
    ensures CanRun(0, steps)
    ensures var s := After(0, steps);
      && s.submitted == map[HONEST := FIRST, TRICKY := SECOND] && s.awaiting == [HONEST, TRICKY]
      && s.resultBroker == {OUTCOME} && s.redis == map[] && s.results == map[] && s.deafSchedulers == {}
  {
    hide CanRun, After, ResultSendable, RunTask;
    steps := Delivered();
    FirstTravels();
    Extend(0, steps, Hand(0));
    steps := steps + [Hand(0)];
    assert After(0, steps).pool == [FIRST];
    var execute := Execute(0, Gave(true, [120]), 0, []);
    Extend(0, steps, execute);
    steps := steps + [execute];
    assert After(0, steps).finished == [OUTCOME];
    Extend(0, steps, Report(true));
    steps := steps + [Report(true)];
  }

  /** Then the second id is polled: the lookup key ends at the NUL, and the first task's result is
      filed under the second task's id. */
  lemma NulIdTakesForeignResult() returns (steps: seq<Step>)
    ensures CanRun(0, steps)
    ensures var s := After(0, steps);
      && HONEST in s.submitted && TRICKY in s.submitted
      && TRICKY in s.results && s.results[TRICKY].taskId == HONEST != TRICKY
  {
    hide CanRun, After, CString, ResultParse, ResultSendable, ResultBytes, ResultTravels, Without;
    steps := Back();
    FirstTravels();
    TrickyKey();
    ResultDelivery(OUTCOME);
    NeverNoResult(OUTCOME);
    Extend(0, steps, StoreResult(OUTCOME, 0, true));
    steps := steps + [StoreResult(OUTCOME, 0, true)];
    assert After(0, steps).redis == map[HONEST := CString(ResultBytes(OUTCOME))];
    Extend(0, steps, Poll(1, true, true));
    steps := steps + [Poll(1, true, true)];
  }
}
