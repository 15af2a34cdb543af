/** Messages with short strings can be serialized and fit one socket read. */
module ShortMessages {
  import opened Wire
  import opened Codec
  import opened Messages
  import opened MessageSize
  import opened Transport

  predicate Short(s: Bytes) { |s| <= 100 }

  lemma ShortText(s: Bytes)
    requires Short(s)
    ensures forall order :: 0 <= FieldSize(Text(s), order) <= 111
  {
    assert Pow128(1) == 128;
    VarintLength(|s|, 1);
  }

  lemma AnyNumber(n: int)
    requires -POW63 <= n < POW63
    ensures forall order :: 0 <= FieldSize(Num(n), order) <= 11
  {
    assert Pow128(5) == 0x8_0000_0000;
    assert Pow128(10) == 0x40_0000_0000_0000_0000;
    VarintLength(ToWire(n), 10);
  }

  /** A task with short strings and no parameters can be sent, and fits one socket read. */
  lemma ShortTask(t: Task)
    requires ValidTask(t) && t.metadata == map[] && Short(t.taskId) && Short(t.content) && Short(t.workerId)
    ensures TaskSendable(t, []) && |TaskBytes(t, [])| <= SOCKET_BUFFER
  {
    var msg := TaskMessage(t);
    TaskTyped(t);
    assert OrdersMaps(msg, []);
    ShortText(t.taskId);
    ShortText(t.content);
    ShortText(t.workerId);
    AnyNumber(t.taskType);
    AnyNumber(t.status);
    AnyNumber(t.startSched);
    AnyNumber(t.endSched);
    AnyNumber(t.startWorker);
    assert FieldSize(msg[5], []) == 0;
    TaskByteSizeUnrolled(t, []);
    SizeIs(msg, [], [], 0);
    SizeMatchesSerialization(TASK, msg, [], []);
  }

  lemma ShortResult(r: TaskResult)
    requires ValidResult(r) && Short(r.taskId) && Short(r.output) && Short(r.errorMessage) && Short(r.workerId)
    ensures ResultSendable(r)
  {
    var msg := ResultMessage(r);
    ResultTyped(r);
    assert OrdersMaps(msg, []);
    ShortText(r.taskId);
    ShortText(r.output);
    ShortText(r.errorMessage);
    ShortText(r.workerId);
    AnyNumber(r.status);
    AnyNumber(r.startSched);
    AnyNumber(r.endSched);
    AnyNumber(r.startWorker);
    AnyNumber(r.startExec);
    AnyNumber(r.endWorker);
    AnyNumber(r.durationMs);
    ResultUnrolled(r);
    SizeIs(msg, [], [], 0);
  }

  lemma ResultUnrolled(r: TaskResult)
    ensures var msg := ResultMessage(r);
      SizeFrom(msg, [], 0) == FieldSize(msg[0], []) + FieldSize(msg[1], []) + FieldSize(msg[2], []) +
        FieldSize(msg[3], []) + FieldSize(msg[4], []) + FieldSize(msg[5], []) + FieldSize(msg[6], []) +
        FieldSize(msg[7], []) + FieldSize(msg[8], []) + FieldSize(msg[9], []) + FieldSize(msg[10], [])
  {
    hide FieldSize;
    var msg := ResultMessage(r);
    assert SizeFrom(msg, [], 10) == FieldSize(msg[10], []) + SizeFrom(msg, [], 11);
    assert SizeFrom(msg, [], 8) == FieldSize(msg[8], []) + SizeFrom(msg, [], 9);
    assert SizeFrom(msg, [], 6) == FieldSize(msg[6], []) + SizeFrom(msg, [], 7);
    assert SizeFrom(msg, [], 4) == FieldSize(msg[4], []) + SizeFrom(msg, [], 5);
    assert SizeFrom(msg, [], 2) == FieldSize(msg[2], []) + SizeFrom(msg, [], 3);
    assert SizeFrom(msg, [], 0) == FieldSize(msg[0], []) + SizeFrom(msg, [], 1);
  }
}
