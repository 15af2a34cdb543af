/** The stamps of a result are the moments its task was read, published, delivered and run. */
module Stamps {
  import opened Wire
  import opened Messages
  import opened Transport
  import opened Pipeline

  /** Which id was read, published, delivered and run, and when. */
  datatype Times = Times(
    readAt: set<(Bytes, int)>, sentAt: set<(Bytes, int)>, arrivedAt: set<(Bytes, int)>, ranAt: set<(Bytes, int)>)

  ghost function Noted(times: Times, s: State, step: Step): Times
    requires Enabled(s, step)
  {
    match step
    case Receive(i, n, now) => times.(readAt := times.readAt + {(s.socket[i].task.taskId, now)})
    case Dispatch(order, now, arrives) => times.(sentAt := times.sentAt + {(s.pending[0].taskId, now)})
    case DeliverTask(envelope, worker, now) => times.(arrivedAt := times.arrivedAt + {(envelope.task.taskId, now)})
    case Execute(i, outcome, now, workerId) => times.(ranAt := times.ranAt + {(s.pool[i].taskId, now)})
    case _ => times
  }

  ghost function TimesOf(clock: int, steps: seq<Step>): Times
    requires CanRun(clock, steps)
  {
    if steps == [] then Times({}, {}, {}, {})
    else var n := |steps| - 1; Noted(TimesOf(clock, steps[..n]), After(clock, steps[..n]), steps[n])
  }

  predicate WasRead(times: Times, t: Task) { (t.taskId, t.startSched) in times.readAt }
  predicate WasSent(times: Times, t: Task) { WasRead(times, t) && (t.taskId, t.endSched) in times.sentAt }
  predicate HasArrived(times: Times, t: Task) { WasSent(times, t) && (t.taskId, t.startWorker) in times.arrivedAt }
  predicate HasRun(times: Times, e: Execution) { HasArrived(times, e.task) && (e.task.taskId, e.at) in times.ranAt }

  ghost predicate AllStamped(s: State, times: Times)
  {
    && (forall t | t in s.pending :: WasRead(times, t))
    && (forall e | e in s.taskBroker :: WasSent(times, e.task))
    && (forall a | a in s.received :: HasArrived(times, a.task))
    && (forall t | t in s.pool :: HasArrived(times, t))
    && (forall e | e in s.executions :: HasRun(times, e))
  }

  lemma ReadStamped(s: State, i: nat, n: nat, now: int, times: Times)
    requires AllStamped(s, times) && Enabled(s, Receive(i, n, now))
    ensures AllStamped(ReceiveEffect(s, i, n, now), Noted(times, s, Receive(i, n, now)))
  {
    hide TaskSendable, TaskBytes, TaskParse, SocketRead, CanRead;
    var e := s.socket[i];
    var parsed := TaskParse(SocketRead(e.task, e.order, n));
    if SocketRead(e.task, e.order, n) != [] && parsed.Parsed? {
      ReadGenuine(e, n, parsed.value);
    }
  }

  lemma ArrivalStamped(s: State, envelope: Envelope, worker: nat, now: int, times: Times)
    requires AllStamped(s, times) && Enabled(s, DeliverTask(envelope, worker, now))
    ensures AllStamped(DeliverEffect(s, envelope, worker, now), Noted(times, s, DeliverTask(envelope, worker, now)))
  {
    hide TaskSendable, TaskBytes, TaskParse, CString, TaskTravels;
    TaskDelivery(envelope.task, envelope.order);
  }

  lemma SentStamped(s: State, order: seq<Bytes>, now: int, arrives: bool, times: Times)
    requires AllStamped(s, times) && Enabled(s, Dispatch(order, now, arrives))
    ensures AllStamped(Apply(s, Dispatch(order, now, arrives)), Noted(times, s, Dispatch(order, now, arrives)))
  {
    hide TaskSendable;
    var first := s.pending[0];
    assert first in s.pending;
    var after := Noted(times, s, Dispatch(order, now, arrives));
    assert WasSent(after, first.(endSched := now));
    forall t | t in s.pending[1..] ensures WasRead(after, t) {
      assert t in s.pending;
    }
    forall e | e in s.taskBroker ensures WasSent(after, e.task) {}
  }

  lemma HandedStamped(s: State, i: nat, times: Times)
    requires AllStamped(s, times) && Enabled(s, Hand(i))
    ensures AllStamped(Apply(s, Hand(i)), times)
  {
    hide HasArrived;
    assert s.received[i] in s.received;
    forall a | a in Remove(s.received, i) ensures HasArrived(times, a.task) {
      assert a in s.received;
    }
  }

  lemma RunStamped(s: State, i: nat, outcome: Outcome, now: int, workerId: Bytes, times: Times)
    requires AllStamped(s, times) && Enabled(s, Execute(i, outcome, now, workerId))
    ensures var step := Execute(i, outcome, now, workerId); AllStamped(Apply(s, step), Noted(times, s, step))
  {
    hide RunTask;
    assert s.pool[i] in s.pool;
    var after := Noted(times, s, Execute(i, outcome, now, workerId));
    forall t | t in Remove(s.pool, i) ensures HasArrived(after, t) {
      assert t in s.pool;
    }
    forall e | e in s.executions ensures HasRun(after, e) {}
  }

  lemma StampStep(s: State, step: Step, times: Times)
    requires AllStamped(s, times) && Enabled(s, step)
    ensures AllStamped(Apply(s, step), Noted(times, s, step))
  {
    hide TaskSendable, TaskBytes, TaskParse, ResultParse, ResultSendable, ResultBytes, CString, RunTask, Without,
      ReceiveEffect, DeliverEffect, CanRead;
    match step
    case Receive(i, n, now) => ReadStamped(s, i, n, now, times);
    case DeliverTask(envelope, worker, now) => ArrivalStamped(s, envelope, worker, now, times);
    case Dispatch(order, now, arrives) => SentStamped(s, order, now, arrives, times);
    case Hand(i) => HandedStamped(s, i, times);
    case Execute(i, outcome, now, workerId) => RunStamped(s, i, outcome, now, workerId, times);
    case _ =>
  }

  lemma {:induction false} StampAlong(clock: int, steps: seq<Step>)
    requires CanRun(clock, steps)
    ensures AllStamped(After(clock, steps), TimesOf(clock, steps))
  {
    hide Enabled, Apply, Noted;
    if steps != [] {
      var n := |steps| - 1;
      StampAlong(clock, steps[..n]);
      StampStep(After(clock, steps[..n]), steps[n], TimesOf(clock, steps[..n]));
    }
  }

  /** In every run: the stamps of a result the client holds are times at which a submission with that id
      was read, published and delivered, and for commands and functions the time it was run. */
  lemma ResultStamps(clock: int, steps: seq<Step>, id: Bytes) returns (e: Execution)
    requires CanRun(clock, steps) && id in After(clock, steps).results
    ensures var r := After(clock, steps).results[id]; var times := TimesOf(clock, steps);
      && e in After(clock, steps).executions && e.result == r
      && (r.taskId, r.startSched) in times.readAt && (r.taskId, r.endSched) in times.sentAt
      && (r.taskId, r.startWorker) in times.arrivedAt
      && (Timed(e.task) ==> (r.taskId, r.startExec) in times.ranAt)
  {
    hide CString, SameWork, PartTask, CanRun, After, TimesOf;
    e := Provenance(clock, steps, id);
    StampAlong(clock, steps);
    assert HasRun(TimesOf(clock, steps), e);
  }
}
