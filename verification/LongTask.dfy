/** Why a submission must be read whole: a run of the pipeline in which a command is executed without the
    parameters it was submitted with. */
module LongTask {
  import opened Wire
  import Sums
  import opened Codec
  import opened Messages
  import opened MessageCode
  import opened MessageSize
  import opened Transport
  import opened Pipeline

  /** The task with only the fields serialized before its metadata. */
  function BeforeMetadata(t: Task): Task
  {
    t.(metadata := map[], startSched := 0, endSched := 0, startWorker := 0)
  }

  const METADATA := 5

  lemma {:induction false} RecordsAgree(msg: Message, short: Message, order: seq<Bytes>, i: nat)
    requires |msg| == |short| > METADATA >= i && OrdersMaps(msg, order) && OrdersMaps(short, [])
    requires forall j | 0 <= j < METADATA :: msg[j] == short[j] && !msg[j].Dict?
    requires RecordsFrom(short, [], METADATA) == []
    ensures RecordsFrom(msg, order, i) == RecordsFrom(short, [], i) + RecordsFrom(msg, order, METADATA)
    decreases METADATA - i
  {
    hide FieldRecords, IsOrder;
    if i < METADATA {
      RecordsAgree(msg, short, order, i + 1);
      OneRecord(i, msg[i], order);
      var head, back := FieldRecords(i, msg[i], order), RecordsFrom(msg, order, METADATA);
      assert RecordsFrom(msg, order, i) == head + (RecordsFrom(short, [], i + 1) + back);
      assert RecordsFrom(short, [], i) == head + RecordsFrom(short, [], i + 1);
    }
  }

  /** Only a map depends on the iteration order. */
  lemma OneRecord(i: nat, v: Value, order: seq<Bytes>)
    requires !v.Dict?
    ensures FieldRecords(i, v, order) == FieldRecords(i, v, [])
  {}

  lemma NothingAfter(t: Task)
    ensures var m := TaskMessage(BeforeMetadata(t)); OrdersMaps(m, []) && RecordsFrom(m, [], METADATA) == []
  {
    var m := TaskMessage(BeforeMetadata(t));
    assert RecordsFrom(m, [], 8) == [];
    assert RecordsFrom(m, [], 7) == [];
    assert RecordsFrom(m, [], 6) == [];
  }

  /** The bytes of those fields are a prefix of the task's bytes. */
  lemma CutBeforeMetadata(t: Task, order: seq<Bytes>)
    requires TaskSendable(t, order)
    ensures TaskSendable(BeforeMetadata(t), [])
    ensures var n := |TaskBytes(BeforeMetadata(t), [])|;
      n <= |TaskBytes(t, order)| && TaskBytes(t, order)[..n] == TaskBytes(BeforeMetadata(t), [])
  {
    hide RecordsFrom, EncodeAll, RecordsSize;
    var short := BeforeMetadata(t);
    var msg, cut := TaskMessage(t), TaskMessage(short);
    TaskTyped(t);
    TaskTyped(short);
    NothingAfter(t);
    RecordsAgree(msg, cut, order, 0);
    var front, back := Records(cut, []), RecordsFrom(msg, order, METADATA);
    RecordsSizeConcat(front, back);
    SerializableFits(TASK, msg, order);
    SerializableFits(TASK, cut, []);
    RecordsFit(TASK, msg, order, METADATA);
    EncodeAppend(TASK, front, back);
  }

  /** A read that ends where the metadata begins gives the task without it. */
  lemma LosesParameters(t: Task, order: seq<Bytes>)
    requires TaskSendable(t, order)
    ensures TaskSendable(BeforeMetadata(t), [])
    ensures var n := |TaskBytes(BeforeMetadata(t), [])|;
      && n <= |TaskBytes(t, order)|
      && TaskParse(TaskBytes(t, order)[..n]) == if TaskUtf8(BeforeMetadata(t)) then Parsed(BeforeMetadata(t)) else Malformed
  {
    hide TaskSendable, TaskBytes, TaskParse, TaskUtf8, BeforeMetadata;
    CutBeforeMetadata(t, order);
    WholeRead(BeforeMetadata(t), []);
  }

  // ---- an input -------------------------------------------------------------------------------

  const ID: Bytes := [97]
  const COMMAND_TEXT: Bytes := seq(4088, i => 120)
  const PARAMETERS: map<Bytes, Bytes> := map[[107] := [118]]
  const LONG := EMPTY_TASK.(taskId := ID, taskType := COMMAND, content := COMMAND_TEXT, metadata := PARAMETERS)
  const SHORT := EMPTY_TASK.(taskId := ID, taskType := COMMAND, content := COMMAND_TEXT)
  const ORDER: seq<Bytes> := [[107]]

  lemma {:induction false} PlainText(s: Bytes)
    requires forall i | 0 <= i < |s| :: 0 < s[i] < 128
    ensures CleanText(s)
  {
    if s != [] {
      PlainText(s[1..]);
    }
  }

  lemma ShortTravels()
    ensures TaskTravels(SHORT) && TaskUtf8(SHORT)
  {
    PlainText(ID);
    PlainText(COMMAND_TEXT);
    PlainText([]);
  }

  lemma FieldSizes(order: seq<Bytes>)
    ensures FieldSize(Text(ID), order) == 3 && FieldSize(Num(COMMAND), order) == 2
    ensures FieldSize(Text(COMMAND_TEXT), order) == 4091 && FieldSize(Text([]), order) == 0
    ensures FieldSize(Num(0), order) == 0
  {
    assert Varint(4088) == [4088 % 128 + 128] + Varint(31);
  }

  lemma ParametersSize()
    ensures FieldSize(Dict(PARAMETERS), ORDER) == 8 && FieldSize(Dict(map[]), []) == 0
  {
    assert EntryRecordSize(PARAMETERS)([107]) == 8;
    Sums.SumAppend([], [107], EntryRecordSize(PARAMETERS));
    assert [] + [[107]] == ORDER;
  }

  lemma TaskSize(t: Task, order: seq<Bytes>)
    requires (t == LONG && order == ORDER) || (t == SHORT && order == [])
    ensures OrdersMaps(TaskMessage(t), order) && TaskSendable(t, order)
    ensures |TaskBytes(t, order)| == if order == ORDER then 4104 else 4096
  {
    hide Serialize, FieldSize;
    var msg := TaskMessage(t);
    assert IsOrder(ORDER, PARAMETERS) && IsOrder([], map[]);
    TaskTyped(t);
    FieldSizes(order);
    ParametersSize();
    TaskByteSizeUnrolled(t, order);
    assert msg[0] == Text(ID) && msg[1] == Num(COMMAND) && msg[2] == Text(COMMAND_TEXT) && msg[3] == Text([]);
    assert msg[4] == Num(0) && msg[6] == Num(0) && msg[7] == Num(0) && msg[8] == Num(0);
    assert msg[5] == Dict(if order == ORDER then PARAMETERS else map[]);
    assert SizeFrom(msg, order, 0) == 4096 + FieldSize(msg[5], order);
    SizeIs(msg, order, order, 0);
    SizeMatchesSerialization(TASK, msg, order, order);
  }

  /** A command of 4104 bytes whose first 4096 end where its parameters begin: the scheduler's one read
      parses, to the command without them. */
  lemma LongTaskCut()
    ensures TaskSendable(LONG, ORDER) && CanRead(LONG, ORDER, SOCKET_BUFFER)
    ensures TaskParse(SocketRead(LONG, ORDER, SOCKET_BUFFER)) == Parsed(SHORT)
    ensures SHORT == LONG.(metadata := map[]) && LONG.metadata != map[]
  {
    hide TaskSendable, TaskBytes, TaskParse, TaskUtf8;
    TaskSize(LONG, ORDER);
    TaskSize(SHORT, []);
    assert BeforeMetadata(LONG) == SHORT;
    ShortTravels();
    LosesParameters(LONG, ORDER);
    assert [107] in LONG.metadata;
  }

  // ---- a run ----------------------------------------------------------------------------------

  lemma Scheduled() returns (steps: seq<Step>)
    ensures CanRun(0, steps)
    ensures var s := After(0, steps);
      && s.submitted == map[ID := LONG] && s.pending == [SHORT] && s.clock == 0
      && s.taskBroker == {} && s.received == [] && s.pool == [] && s.executions == [] && s.deafWorkers == {}
  {
    hide TaskSendable, TaskBytes, TaskParse, SocketRead, CanRead;
    LongTaskCut();
    TaskSize(SHORT, []);
    assert Stamped(SHORT, 0) == SHORT;
    assert SocketRead(LONG, ORDER, SOCKET_BUFFER) != [] by { ReadLength(); }
    steps := [];
    Extend(0, steps, Submit(LONG));
    steps := steps + [Submit(LONG)];
    Extend(0, steps, Send(ORDER, true));
    steps := steps + [Send(ORDER, true)];
    Extend(0, steps, Receive(0, SOCKET_BUFFER, 0));
    steps := steps + [Receive(0, SOCKET_BUFFER, 0)];
  }

  lemma ReadLength()
    requires TaskSendable(LONG, ORDER) && CanRead(LONG, ORDER, SOCKET_BUFFER)
    ensures |SocketRead(LONG, ORDER, SOCKET_BUFFER)| == SOCKET_BUFFER
  {
    hide TaskSendable, TaskBytes;
  }

  lemma AtTheWorker() returns (steps: seq<Step>)
    ensures CanRun(0, steps)
    ensures var s := After(0, steps);
      && s.submitted == map[ID := LONG] && s.clock == 0
      && s.received == [Arrival(0, SHORT)] && s.pool == [] && s.executions == []
  {
    hide CanRun, After, TaskSendable, TaskBytes, TaskParse, TaskTravels, CString;
    TaskSize(SHORT, []);
    ShortTravels();
    TaskDelivery(SHORT, []);
    assert SHORT.(endSched := 0) == SHORT && SHORT.(startWorker := 0) == SHORT;
    steps := Scheduled();
    Extend(0, steps, Dispatch([], 0, true));
    steps := steps + [Dispatch([], 0, true)];
    var deliver := DeliverTask(Envelope(SHORT, []), 0, 0);
    Extend(0, steps, deliver);
    steps := steps + [deliver];
  }

  /** The command runs, without the parameters it was submitted with. */
  lemma RunsWithoutParameters() returns (steps: seq<Step>)
    ensures CanRun(0, steps)
    ensures var s := After(0, steps);
      && ID in s.submitted && s.submitted[ID].metadata == PARAMETERS
      && |s.executions| == 1 && s.executions[0].task.taskId == ID && s.executions[0].task.metadata == map[]
  {
    hide CanRun, After, RunTask;
    steps := AtTheWorker();
    Extend(0, steps, Hand(0));
    steps := steps + [Hand(0)];
    assert After(0, steps).pool == [SHORT];
    Extend(0, steps, Execute(0, Gave(true, ID), 0, []));
    steps := steps + [Execute(0, Gave(true, ID), 0, [])];
  }
}
