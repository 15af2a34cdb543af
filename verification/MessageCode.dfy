/** The generated parse loops and serializers, statement by statement: literal tag
    bytes, named fields, the source's field order. Each is proved to compute the table-driven codec. */
module MessageCode {
  import opened Wire
  import opened Codec
  import opened Messages

  // ---- parsing ------------------------------------------------------------------------------

  /** One turn of the parse loop: a known tag is answered by its payload. */
  lemma LoopTurn(schema: Schema, msg: Message, s: Bytes, i: nat)
    requires ValidSchema(schema) && WellTyped(schema, msg) && i < |schema| && s != []
    requires ReadVarint(s, TAG_LIMIT).Got?
    requires ReadVarint(s, TAG_LIMIT).value % POW32 == Tag(i, schema[i])
    ensures var used := ReadVarint(s, TAG_LIMIT).used;
      ParseInto(schema, msg, s) ==
      match ReadPayload(schema[i], msg[i], s[used..])
      case Broken => Malformed
      case Foreign => Unmodelled
      case Field(value, n) => ParseInto(schema, msg[i := value], s[used + n..])
  {
    hide ReadPayload, ReadVarint;
  }

  /** A tag that cannot be read, or that no field has. */
  lemma LoopUnusual(schema: Schema, msg: Message, s: Bytes)
    requires ValidSchema(schema) && WellTyped(schema, msg) && s != []
    ensures var head := ReadVarint(s, TAG_LIMIT);
      && (head.Bad? ==> ParseInto(schema, msg, s) == Malformed)
      && (head.Got? && (forall i | 0 <= i < |schema| :: head.value % POW32 != Tag(i, schema[i])) ==>
            ParseInto(schema, msg, s) ==
            if head.value % POW32 == 0 || head.value % POW32 % 8 == 4 then Malformed else Unmodelled)
  {
    hide ReadPayload, ReadVarint;
  }

  lemma ParseNothing(schema: Schema, msg: Message)
    requires ValidSchema(schema) && WellTyped(schema, msg)
    ensures ParseInto(schema, msg, []) == Parsed(msg)
  {}

  /** The switch of the parse loop: which field the tag names, and that field parsed. */
  method ParseTaskField(t: Task, tag: nat, rest: Bytes) returns (field: int, p: Payload, out: Task)
    requires ValidTask(t)
    ensures -1 <= field < |TASK| && ValidTask(out)
    ensures field == -1 ==> forall i | 0 <= i < |TASK| :: tag != Tag(i, TASK[i])
    ensures field >= 0 ==>
      && tag == Tag(field, TASK[field])
      && HasKind(TASK[field], TaskMessage(t)[field])
      && p == ReadPayload(TASK[field], TaskMessage(t)[field], rest)
      && (p.Field? ==> TaskMessage(out) == TaskMessage(t)[field := p.value])
  {
    hide ParseInto, ReadPayload, ReadVarint, ReadDelimited, WellTyped;
    field, p, out := -1, Broken, t;
    if tag / 8 == 1 && tag % 256 == 10 {
      field, p := 0, ReadPayload(KText, Text(t.taskId), rest);
      if p.Field? {
        out := t.(taskId := p.value.s);
      }
    } else if tag / 8 == 2 && tag % 256 == 16 {
      field, p := 1, ReadPayload(KEnum, Num(t.taskType), rest);
      if p.Field? {
        out := t.(taskType := p.value.n);
      }
    } else if tag / 8 == 3 && tag % 256 == 26 {
      field, p := 2, ReadPayload(KText, Text(t.content), rest);
      if p.Field? {
        out := t.(content := p.value.s);
      }
    } else if tag / 8 == 4 && tag % 256 == 34 {
      field, p := 3, ReadPayload(KText, Text(t.workerId), rest);
      if p.Field? {
        out := t.(workerId := p.value.s);
      }
    } else if tag / 8 == 5 && tag % 256 == 40 {
      field, p := 4, ReadPayload(KEnum, Num(t.status), rest);
      if p.Field? {
        out := t.(status := p.value.n);
      }
    } else if tag / 8 == 6 && tag % 256 == 50 {
      field, p := 5, ReadPayload(KMap, Dict(t.metadata), rest);
      if p.Field? {
        out := t.(metadata := p.value.m);
      }
    } else if tag / 8 == 7 && tag % 256 == 56 {
      field, p := 6, ReadPayload(KInt64, Num(t.startSched), rest);
      if p.Field? {
        out := t.(startSched := p.value.n);
      }
    } else if tag / 8 == 8 && tag % 256 == 64 {
      field, p := 7, ReadPayload(KInt64, Num(t.endSched), rest);
      if p.Field? {
        out := t.(endSched := p.value.n);
      }
    } else if tag / 8 == 9 && tag % 256 == 72 {
      field, p := 8, ReadPayload(KInt64, Num(t.startWorker), rest);
      if p.Field? {
        out := t.(startWorker := p.value.n);
      }
    }
  }

  method ParseTask(s: Bytes) returns (r: Parse<Task>)
    ensures r == TaskParse(s)
  {
    hide ParseInto, ReadPayload, ReadVarint, ReadDelimited, WellTyped;
    var t := EMPTY_TASK;
    var pos := 0;
    assert s[0..] == s && TaskMessage(t) == Default(TASK);
    while pos < |s|
      invariant 0 <= pos <= |s|
      invariant ValidTask(t) && WellTyped(TASK, TaskMessage(t))
      invariant ParseInto(TASK, TaskMessage(t), s[pos..]) == ParseMessage(TASK, s)
      decreases |s| - pos
    {
      LoopUnusual(TASK, TaskMessage(t), s[pos..]);
      var head := ReadVarint(s[pos..], TAG_LIMIT);
      if head.Bad? {
        return Malformed;
      }
      var tag := head.value % POW32;
      var field, p, next := ParseTaskField(t, tag, s[pos..][head.used..]);
      if field == -1 {
        return if tag == 0 || tag % 8 == 4 then Malformed else Unmodelled;
      }
      LoopTurn(TASK, TaskMessage(t), s[pos..], field);
      if p.Broken? {
        return Malformed;
      } else if p.Foreign? {
        return Unmodelled;
      }
      assert s[pos..][head.used + p.used..] == s[pos + head.used + p.used..];
      TaskTyped(next);
      t, pos := next, pos + head.used + p.used;
    }
    assert s[pos..] == [];
    ParseNothing(TASK, TaskMessage(t));
    return Parsed(t);
  }

  /** The switch of the parse loop: which field the tag names, and that field parsed. */
  method ParseResultField(t: TaskResult, tag: nat, rest: Bytes) returns (field: int, p: Payload, out: TaskResult)
    requires ValidResult(t)
    ensures -1 <= field < |RESULT| && ValidResult(out)
    ensures field == -1 ==> forall i | 0 <= i < |RESULT| :: tag != Tag(i, RESULT[i])
    ensures field >= 0 ==>
      && tag == Tag(field, RESULT[field])
      && HasKind(RESULT[field], ResultMessage(t)[field])
      && p == ReadPayload(RESULT[field], ResultMessage(t)[field], rest)
      && (p.Field? ==> ResultMessage(out) == ResultMessage(t)[field := p.value])
  {
    hide ParseInto, ReadPayload, ReadVarint, ReadDelimited, WellTyped;
    field, p, out := -1, Broken, t;
    if tag / 8 == 1 && tag % 256 == 10 {
      field, p := 0, ReadPayload(KText, Text(t.taskId), rest);
      if p.Field? {
        out := t.(taskId := p.value.s);
      }
    } else if tag / 8 == 2 && tag % 256 == 16 {
      field, p := 1, ReadPayload(KEnum, Num(t.status), rest);
      if p.Field? {
        out := t.(status := p.value.n);
      }
    } else if tag / 8 == 3 && tag % 256 == 26 {
      field, p := 2, ReadPayload(KText, Text(t.output), rest);
      if p.Field? {
        out := t.(output := p.value.s);
      }
    } else if tag / 8 == 4 && tag % 256 == 34 {
      field, p := 3, ReadPayload(KText, Text(t.errorMessage), rest);
      if p.Field? {
        out := t.(errorMessage := p.value.s);
      }
    } else if tag / 8 == 5 && tag % 256 == 40 {
      field, p := 4, ReadPayload(KInt64, Num(t.startSched), rest);
      if p.Field? {
        out := t.(startSched := p.value.n);
      }
    } else if tag / 8 == 6 && tag % 256 == 48 {
      field, p := 5, ReadPayload(KInt64, Num(t.endSched), rest);
      if p.Field? {
        out := t.(endSched := p.value.n);
      }
    } else if tag / 8 == 7 && tag % 256 == 56 {
      field, p := 6, ReadPayload(KInt64, Num(t.startWorker), rest);
      if p.Field? {
        out := t.(startWorker := p.value.n);
      }
    } else if tag / 8 == 8 && tag % 256 == 64 {
      field, p := 7, ReadPayload(KInt64, Num(t.startExec), rest);
      if p.Field? {
        out := t.(startExec := p.value.n);
      }
    } else if tag / 8 == 9 && tag % 256 == 72 {
      field, p := 8, ReadPayload(KInt64, Num(t.endWorker), rest);
      if p.Field? {
        out := t.(endWorker := p.value.n);
      }
    } else if tag / 8 == 10 && tag % 256 == 80 {
      field, p := 9, ReadPayload(KInt64, Num(t.durationMs), rest);
      if p.Field? {
        out := t.(durationMs := p.value.n);
      }
    } else if tag / 8 == 11 && tag % 256 == 90 {
      field, p := 10, ReadPayload(KText, Text(t.workerId), rest);
      if p.Field? {
        out := t.(workerId := p.value.s);
      }
    }
  }

  method ParseResult(s: Bytes) returns (r: Parse<TaskResult>)
    ensures r == ResultParse(s)
  {
    hide ParseInto, ReadPayload, ReadVarint, ReadDelimited, WellTyped;
    var t := EMPTY_RESULT;
    var pos := 0;
    assert s[0..] == s && ResultMessage(t) == Default(RESULT);
    while pos < |s|
      invariant 0 <= pos <= |s|
      invariant ValidResult(t) && WellTyped(RESULT, ResultMessage(t))
      invariant ParseInto(RESULT, ResultMessage(t), s[pos..]) == ParseMessage(RESULT, s)
      decreases |s| - pos
    {
      LoopUnusual(RESULT, ResultMessage(t), s[pos..]);
      var head := ReadVarint(s[pos..], TAG_LIMIT);
      if head.Bad? {
        return Malformed;
      }
      var tag := head.value % POW32;
      var field, p, next := ParseResultField(t, tag, s[pos..][head.used..]);
      if field == -1 {
        return if tag == 0 || tag % 8 == 4 then Malformed else Unmodelled;
      }
      LoopTurn(RESULT, ResultMessage(t), s[pos..], field);
      if p.Broken? {
        return Malformed;
      } else if p.Foreign? {
        return Unmodelled;
      }
      assert s[pos..][head.used + p.used..] == s[pos + head.used + p.used..];
      ResultTyped(next);
      t, pos := next, pos + head.used + p.used;
    }
    assert s[pos..] == [];
    ParseNothing(RESULT, ResultMessage(t));
    return Parsed(t);
  }

  /** The switch of the parse loop: which field the tag names, and that field parsed. */
  method ParseHeartbeatField(scheduler: bool, t: Heartbeat, tag: nat, rest: Bytes) returns (field: int, p: Payload, out: Heartbeat)
    requires ValidHeartbeat(scheduler, t)
    ensures -1 <= field < |HeartbeatSchema(scheduler)| && ValidHeartbeat(scheduler, out)
    ensures field == -1 ==> forall i | 0 <= i < |HeartbeatSchema(scheduler)| :: tag != Tag(i, HeartbeatSchema(scheduler)[i])
    ensures field >= 0 ==>
      && tag == Tag(field, HeartbeatSchema(scheduler)[field])
      && HasKind(HeartbeatSchema(scheduler)[field], HeartbeatMessage(t)[field])
      && p == ReadPayload(HeartbeatSchema(scheduler)[field], HeartbeatMessage(t)[field], rest)
      && (p.Field? ==> HeartbeatMessage(out) == HeartbeatMessage(t)[field := p.value])
  {
    hide ParseInto, ReadPayload, ReadVarint, ReadDelimited, WellTyped;
    field, p, out := -1, Broken, t;
    if tag / 8 == 1 && tag % 256 == 10 {
      field, p := 0, ReadPayload(KText, Text(t.nodeId), rest);
      if p.Field? {
        out := t.(nodeId := p.value.s);
      }
    } else if tag / 8 == 2 && tag % 256 == 18 {
      field, p := 1, ReadPayload(KText, Text(t.nodeIp), rest);
      if p.Field? {
        out := t.(nodeIp := p.value.s);
      }
    } else if tag / 8 == 3 && tag % 256 == 24 {
      field, p := 2, ReadPayload(KInt32, Num(t.nodePort), rest);
      if p.Field? {
        out := t.(nodePort := p.value.n);
      }
    } else if tag / 8 == 4 && tag % 256 == 32 {
      field, p := 3, ReadPayload(if scheduler then KInt32 else KInt64, Num(t.timestamp), rest);
      if p.Field? {
        out := t.(timestamp := p.value.n);
      }
    } else if tag / 8 == 5 && tag % 256 == 40 {
      field, p := 4, ReadPayload(KBool, Num(if t.isHealthy then 1 else 0), rest);
      if p.Field? {
        out := t.(isHealthy := p.value.n == 1);
      }
    } else if tag / 8 == 6 && tag % 256 == 50 {
      field, p := 5, ReadPayload(KMap, Dict(t.dec), rest);
      if p.Field? {
        out := t.(dec := p.value.m);
      }
    }
  }

  method ParseHeartbeat(scheduler: bool, s: Bytes) returns (r: Parse<Heartbeat>)
    ensures r == HeartbeatParse(scheduler, s)
  {
    hide ParseInto, ReadPayload, ReadVarint, ReadDelimited, WellTyped;
    var t := EMPTY_HEARTBEAT;
    var pos := 0;
    assert s[0..] == s && HeartbeatMessage(t) == Default(HeartbeatSchema(scheduler));
    while pos < |s|
      invariant 0 <= pos <= |s|
      invariant ValidHeartbeat(scheduler, t) && WellTyped(HeartbeatSchema(scheduler), HeartbeatMessage(t))
      invariant ParseInto(HeartbeatSchema(scheduler), HeartbeatMessage(t), s[pos..]) == ParseMessage(HeartbeatSchema(scheduler), s)
      decreases |s| - pos
    {
      LoopUnusual(HeartbeatSchema(scheduler), HeartbeatMessage(t), s[pos..]);
      var head := ReadVarint(s[pos..], TAG_LIMIT);
      if head.Bad? {
        return Malformed;
      }
      var tag := head.value % POW32;
      var field, p, next := ParseHeartbeatField(scheduler, t, tag, s[pos..][head.used..]);
      if field == -1 {
        return if tag == 0 || tag % 8 == 4 then Malformed else Unmodelled;
      }
      LoopTurn(HeartbeatSchema(scheduler), HeartbeatMessage(t), s[pos..], field);
      if p.Broken? {
        return Malformed;
      } else if p.Foreign? {
        return Unmodelled;
      }
      assert s[pos..][head.used + p.used..] == s[pos + head.used + p.used..];
      HeartbeatTyped(scheduler, next);
      t, pos := next, pos + head.used + p.used;
    }
    assert s[pos..] == [];
    ParseNothing(HeartbeatSchema(scheduler), HeartbeatMessage(t));
    return Parsed(t);
  }

  // ---- serializing --------------------------------------------------------------------------

  function WriteText(number: nat, text: Bytes): Bytes
    requires number <= 15
  {
    [number * 8 + 2] + Delimited(text)
  }

  function WriteVarint(number: nat, n: int): Bytes
    requires number <= 15 && -POW63 <= n < POW63
  {
    [number * 8] + Varint(ToWire(n))
  }

  /** The entries of a map field, in iteration order. */
  function WriteEntries(number: nat, m: map<Bytes, Bytes>, keys: seq<Bytes>): Bytes
    requires number <= 15 && forall j | 0 <= j < |keys| :: keys[j] in m
  {
    if keys == [] then []
    else WriteText(number, EntryBytes(keys[0], m[keys[0]])) + WriteEntries(number, m, keys[1..])
  }

  function WriteField(i: nat, v: Value, order: seq<Bytes>): Bytes
    requires i < 15
    requires v.Num? ==> -POW63 <= v.n < POW63
    requires v.Dict? ==> forall j | 0 <= j < |order| :: order[j] in v.m
  {
    match v
    case Text(s) => if s == [] then [] else WriteText(i + 1, s)
    case Num(n) => if n == 0 then [] else WriteVarint(i + 1, n)
    case Dict(m) => WriteEntries(i + 1, m, order)
  }

  /** What is still to be written from field `i` on. */
  ghost function Remaining(schema: Schema, msg: Message, order: seq<Bytes>, i: nat): Bytes
    requires Serializable(schema, msg, order) && i <= |schema|
  {
    RecordsFit(schema, msg, order, i);
    EncodeAll(schema, RecordsFrom(msg, order, i))
  }

  lemma {:induction false} RecordsFit(schema: Schema, msg: Message, order: seq<Bytes>, i: nat)
    requires Serializable(schema, msg, order) && i <= |schema|
    ensures AllFit(schema, RecordsFrom(msg, order, i))
    decreases i
  {
    hide ValidSchema, RecordsSize, Fits, FieldRecords;
    if i == 0 {
      SerializableFits(schema, msg, order);
    } else {
      RecordsFit(schema, msg, order, i - 1);
      var all, head, tail := RecordsFrom(msg, order, i - 1), FieldRecords(i - 1, msg[i - 1], order), RecordsFrom(msg, order, i);
      assert all == head + tail;
      forall j | 0 <= j < |tail| ensures Fits(schema, tail[j]) {
        assert all[|head| + j] == tail[j];
      }
    }
  }

  lemma {:induction false} EncodeAppend(schema: Schema, a: seq<Record>, b: seq<Record>)
    requires ValidSchema(schema) && AllFit(schema, a) && AllFit(schema, b) && AllFit(schema, a + b)
    ensures EncodeAll(schema, a + b) == EncodeAll(schema, a) + EncodeAll(schema, b)
  {
    hide Encode;
    if a == [] {
      assert a + b == b;
    } else {
      assert (a + b)[1..] == a[1..] + b && (a + b)[0] == a[0];
      EncodeAppend(schema, a[1..], b);
    }
  }

  lemma {:induction false} EntriesEncoded(schema: Schema, i: nat, m: map<Bytes, Bytes>, keys: seq<Bytes>, rs: seq<Record>)
    requires ValidSchema(schema) && i < |schema| && schema[i].KMap? && AllFit(schema, rs) && |rs| == |keys|
    requires forall j | 0 <= j < |keys| :: keys[j] in m && rs[j] == REntry(i, keys[j], m[keys[j]])
    ensures EncodeAll(schema, rs) == WriteEntries(i + 1, m, keys)
    decreases |keys|
  {
    hide Delimited, EntryBytes;
    if keys != [] {
      EntriesEncoded(schema, i, m, keys[1..], rs[1..]);
    }
  }

  lemma FieldEncoded(schema: Schema, i: nat, v: Value, order: seq<Bytes>)
    requires ValidSchema(schema) && i < |schema| && HasKind(schema[i], v) && (v.Dict? ==> IsOrder(order, v.m))
    requires AllFit(schema, FieldRecords(i, v, order))
    ensures EncodeAll(schema, FieldRecords(i, v, order)) == WriteField(i, v, order)
  {
    var rs := FieldRecords(i, v, order);
    if v.Dict? {
      EntriesEncoded(schema, i, v.m, order, rs);
    } else if rs != [] {
      assert rs[1..] == [];
      assert EncodeAll(schema, rs) == Encode(schema, rs[0]) + [];
    }
  }

  lemma FieldWritten(schema: Schema, msg: Message, order: seq<Bytes>, i: nat)
    requires Serializable(schema, msg, order) && i < |schema|
    ensures HasKind(schema[i], msg[i]) && (msg[i].Dict? ==> IsOrder(order, msg[i].m))
    ensures Remaining(schema, msg, order, i) == WriteField(i, msg[i], order) + Remaining(schema, msg, order, i + 1)
  {
    hide Encode, FieldRecords, WriteField, EncodeAll;
    RecordsFit(schema, msg, order, i);
    RecordsFit(schema, msg, order, i + 1);
    var all, head, tail := RecordsFrom(msg, order, i), FieldRecords(i, msg[i], order), RecordsFrom(msg, order, i + 1);
    assert all == head + tail;
    forall j | 0 <= j < |head| ensures Fits(schema, head[j]) { assert all[j] == head[j]; }
    EncodeAppend(schema, head, tail);
    FieldEncoded(schema, i, msg[i], order);
  }

  lemma AllWritten(schema: Schema, msg: Message, order: seq<Bytes>)
    requires Serializable(schema, msg, order)
    ensures Remaining(schema, msg, order, |schema|) == []
    ensures Remaining(schema, msg, order, 0) == Serialize(schema, msg, order)
  {}

  /** `target` holds exactly the fields before `i`. */
  ghost predicate Written(schema: Schema, msg: Message, order: seq<Bytes>, i: nat, target: Bytes)
  {
    Serializable(schema, msg, order) && i <= |schema| &&
    target + Remaining(schema, msg, order, i) == Serialize(schema, msg, order)
  }

  lemma WrittenStart(schema: Schema, msg: Message, order: seq<Bytes>)
    requires Serializable(schema, msg, order)
    ensures Written(schema, msg, order, 0, [])
  {
    hide Remaining, Serialize;
    AllWritten(schema, msg, order);
  }

  lemma WrittenEnd(schema: Schema, msg: Message, order: seq<Bytes>, target: Bytes)
    requires Written(schema, msg, order, |schema|, target)
    ensures Serializable(schema, msg, order) && target == Serialize(schema, msg, order)
  {
    hide Remaining, Serialize;
    AllWritten(schema, msg, order);
    assert target + [] == target;
  }

  lemma WrittenNext(schema: Schema, msg: Message, order: seq<Bytes>, i: nat, before: Bytes, written: Bytes)
    requires Written(schema, msg, order, i, before) && i < |schema|
    requires HasKind(schema[i], msg[i]) && (msg[i].Dict? ==> IsOrder(order, msg[i].m))
    requires written == WriteField(i, msg[i], order)
    ensures Written(schema, msg, order, i + 1, before + written)
  {
    hide Remaining, WriteField, Serialize;
    FieldWritten(schema, msg, order, i);
    assert before + (written + Remaining(schema, msg, order, i + 1)) == before + written + Remaining(schema, msg, order, i + 1);
  }

  lemma WrittenKind(schema: Schema, msg: Message, order: seq<Bytes>, i: nat, target: Bytes)
    requires Written(schema, msg, order, i, target) && i < |schema|
    ensures |msg| == |schema| && HasKind(schema[i], msg[i]) && (msg[i].Dict? ==> IsOrder(order, msg[i].m))
  {}

  /** A string field: written with its tag and length unless empty. */
  method PutText(target: Bytes, number: nat, text: Bytes, ghost schema: Schema, ghost msg: Message, ghost order: seq<Bytes>)
    returns (out: Bytes)
    requires 0 < number <= |schema| <= 15 && |msg| == |schema| && msg[number - 1] == Text(text)
    requires Written(schema, msg, order, number - 1, target)
    ensures Written(schema, msg, order, number, out)
  {
    hide Written, WriteText, WriteVarint;
    WrittenKind(schema, msg, order, number - 1, target);
    var written := if text != [] then WriteText(number, text) else [];
    WrittenNext(schema, msg, order, number - 1, target, written);
    out := target + written;
  }

  /** An integer, enum or bool field: written as a varint unless zero. */
  method PutNumber(target: Bytes, number: nat, n: int, ghost schema: Schema, ghost msg: Message, ghost order: seq<Bytes>)
    returns (out: Bytes)
    requires 0 < number <= |schema| <= 15 && |msg| == |schema| && msg[number - 1] == Num(n) && -POW63 <= n < POW63
    requires Written(schema, msg, order, number - 1, target)
    ensures Written(schema, msg, order, number, out)
  {
    hide Written, WriteText, WriteVarint;
    WrittenKind(schema, msg, order, number - 1, target);
    var written := if n != 0 then WriteVarint(number, n) else [];
    WrittenNext(schema, msg, order, number - 1, target, written);
    out := target + written;
  }

  /** A map field: one record per entry, in iteration order, key and value always written. */
  method PutMap(target: Bytes, number: nat, m: map<Bytes, Bytes>, order: seq<Bytes>, ghost schema: Schema, ghost msg: Message)
    returns (out: Bytes)
    requires 0 < number <= |schema| <= 15 && |msg| == |schema| && msg[number - 1] == Dict(m)
    requires Written(schema, msg, order, number - 1, target)
    ensures Written(schema, msg, order, number, out)
  {
    hide Written, WriteText, WriteVarint;
    WrittenKind(schema, msg, order, number - 1, target);
    assert forall j | 0 <= j < |order| :: order[j] in order;
    var written := [];
    for j := 0 to |order|
      invariant written + WriteEntries(number, m, order[j..]) == WriteEntries(number, m, order)
    {
      var entry := WriteText(number, EntryBytes(order[j], m[order[j]]));
      EntryWritten(number, m, order, j);
      written := written + entry;
    }
    assert order[|order|..] == [];
    WrittenNext(schema, msg, order, number - 1, target, written);
    out := target + written;
  }

  lemma EntryWritten(number: nat, m: map<Bytes, Bytes>, order: seq<Bytes>, j: nat)
    requires number <= 15 && j < |order| && forall j | 0 <= j < |order| :: order[j] in m
    ensures WriteEntries(number, m, order[j..]) ==
            WriteText(number, EntryBytes(order[j], m[order[j]])) + WriteEntries(number, m, order[j + 1..])
  {
    hide WriteText, EntryBytes;
    assert order[j..][1..] == order[j + 1..];
  }

  lemma SerializeTaskReady(t: Task, order: seq<Bytes>)
    requires Serializable(TASK, TaskMessage(t), order)
    ensures ValidTask(t) && Written(TASK, TaskMessage(t), order, 0, [])
  {
    TaskTyped(t);
    WrittenStart(TASK, TaskMessage(t), order);
  }

  method SerializeTask(t: Task, order: seq<Bytes>) returns (target: Bytes)
    requires Serializable(TASK, TaskMessage(t), order)
    ensures target == Serialize(TASK, TaskMessage(t), order)
  {
    hide Written, Serialize, Serializable, WellTyped;
    ghost var msg := TaskMessage(t);
    SerializeTaskReady(t, order);
    target := [];
    target := PutText(target, 1, t.taskId, TASK, msg, order);
    target := PutNumber(target, 2, t.taskType, TASK, msg, order);
    target := PutText(target, 3, t.content, TASK, msg, order);
    target := PutText(target, 4, t.workerId, TASK, msg, order);
    target := PutNumber(target, 5, t.status, TASK, msg, order);
    target := PutMap(target, 6, t.metadata, order, TASK, msg);
    target := PutNumber(target, 7, t.startSched, TASK, msg, order);
    target := PutNumber(target, 8, t.endSched, TASK, msg, order);
    target := PutNumber(target, 9, t.startWorker, TASK, msg, order);
    WrittenEnd(TASK, msg, order, target);
  }

  lemma SerializeResultReady(t: TaskResult, order: seq<Bytes>)
    requires Serializable(RESULT, ResultMessage(t), order)
    ensures ValidResult(t) && Written(RESULT, ResultMessage(t), order, 0, [])
  {
    ResultTyped(t);
    WrittenStart(RESULT, ResultMessage(t), order);
  }

  method SerializeResult(t: TaskResult, order: seq<Bytes>) returns (target: Bytes)
    requires Serializable(RESULT, ResultMessage(t), order)
    ensures target == Serialize(RESULT, ResultMessage(t), order)
  {
    hide Written, Serialize, Serializable, WellTyped;
    ghost var msg := ResultMessage(t);
    SerializeResultReady(t, order);
    target := [];
    target := PutText(target, 1, t.taskId, RESULT, msg, order);
    target := PutNumber(target, 2, t.status, RESULT, msg, order);
    target := PutText(target, 3, t.output, RESULT, msg, order);
    target := PutText(target, 4, t.errorMessage, RESULT, msg, order);
    target := PutNumber(target, 5, t.startSched, RESULT, msg, order);
    target := PutNumber(target, 6, t.endSched, RESULT, msg, order);
    target := PutNumber(target, 7, t.startWorker, RESULT, msg, order);
    target := PutNumber(target, 8, t.startExec, RESULT, msg, order);
    target := PutNumber(target, 9, t.endWorker, RESULT, msg, order);
    target := PutNumber(target, 10, t.durationMs, RESULT, msg, order);
    target := PutText(target, 11, t.workerId, RESULT, msg, order);
    WrittenEnd(RESULT, msg, order, target);
  }

  lemma SerializeHeartbeatReady(scheduler: bool, t: Heartbeat, order: seq<Bytes>)
    requires Serializable(HeartbeatSchema(scheduler), HeartbeatMessage(t), order)
    ensures ValidHeartbeat(scheduler, t) && Written(HeartbeatSchema(scheduler), HeartbeatMessage(t), order, 0, [])
  {
    HeartbeatTyped(scheduler, t);
    WrittenStart(HeartbeatSchema(scheduler), HeartbeatMessage(t), order);
  }

  method SerializeHeartbeat(scheduler: bool, t: Heartbeat, order: seq<Bytes>) returns (target: Bytes)
    requires Serializable(HeartbeatSchema(scheduler), HeartbeatMessage(t), order)
    ensures target == Serialize(HeartbeatSchema(scheduler), HeartbeatMessage(t), order)
  {
    hide Written, Serialize, Serializable, WellTyped;
    ghost var msg := HeartbeatMessage(t);
    SerializeHeartbeatReady(scheduler, t, order);
    target := [];
    target := PutText(target, 1, t.nodeId, HeartbeatSchema(scheduler), msg, order);
    target := PutText(target, 2, t.nodeIp, HeartbeatSchema(scheduler), msg, order);
    target := PutNumber(target, 3, t.nodePort, HeartbeatSchema(scheduler), msg, order);
    target := PutNumber(target, 4, t.timestamp, HeartbeatSchema(scheduler), msg, order);
    target := PutNumber(target, 5, if t.isHealthy then 1 else 0, HeartbeatSchema(scheduler), msg, order);
    target := PutMap(target, 6, t.dec, order, HeartbeatSchema(scheduler), msg);
    WrittenEnd(HeartbeatSchema(scheduler), msg, order, target);
  }

}
