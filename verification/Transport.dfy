/** How serialized messages travel: through NUL-terminated C strings on the broker and into Redis,
    and through one bounded read on the scheduler's socket. */
module Transport {
  import opened Wire
  import opened Codec
  import opened CodecTheorems
  import opened Truncation
  import opened Messages
  import opened MessageCode

  /** What a C string shows of a buffer: everything before the first zero byte. */
  function CString(s: Bytes): (c: Bytes)
    ensures 0 !in c && |c| <= |s| && c == s[..|c|]
    ensures |c| < |s| ==> s[|c|] == 0
  {
    if s == [] || s[0] == 0 then [] else [s[0]] + CString(s[1..])
  }

  lemma CStringWhole(s: Bytes)
    ensures CString(s) == s <==> 0 !in s
  {
    if 0 !in s {
      assert |CString(s)| == |s|;
    }
  }

  // ---- the broker ---------------------------------------------------------------------------

  /** At a record boundary inside a serialization the next byte is a tag, never zero. */
  lemma {:induction false} BoundaryIsTag(schema: Schema, rs: seq<Record>, k: nat)
    requires ValidSchema(schema) && AllFit(schema, rs) && k < |rs|
    ensures |EncodeAll(schema, rs[..k])| < |EncodeAll(schema, rs)|
    ensures EncodeAll(schema, rs)[|EncodeAll(schema, rs[..k])|] == Tag(rs[k].i, schema[rs[k].i]) != 0
    decreases k
  {
    hide Body;
    if k > 0 {
      BoundaryIsTag(schema, rs[1..], k - 1);
      assert rs[..k][1..] == rs[1..][..k - 1] && rs[..k][0] == rs[0];
    }
  }

  /** Publishing through a C string and consuming by length: the message arrives unchanged exactly
      when its strings are UTF-8 without NUL and every map key and value is non-empty. Otherwise the
      consumer's parse fails; it never sees a different message. */
  lemma Delivery(schema: Schema, msg: Message, order: seq<Bytes>)
    requires Serializable(schema, msg, order)
    ensures ParseMessage(schema, CString(Serialize(schema, msg, order))) ==
            if MessageNulFree(msg) && MessageUtf8(msg) then Parsed(msg) else Malformed
  {
    hide ParseInto, MessageNulFree, MessageUtf8;
    var s := Serialize(schema, msg, order);
    var n := |CString(s)|;
    NoZeroByte(schema, msg, order);
    CStringWhole(s);
    if MessageNulFree(msg) {
      RoundTrip(schema, msg, order);
    } else {
      SerializableFits(schema, msg, order);
      var rs := Records(msg, order);
      PrefixParse(schema, Default(schema), rs, n);
      var k := Whole(schema, rs, n);
      if n == |EncodeAll(schema, rs[..k])| {
        CutNotAtBoundary(schema, rs, k, n);
        assert false;
      }
    }
  }

  lemma CutNotAtBoundary(schema: Schema, rs: seq<Record>, k: nat, n: nat)
    requires ValidSchema(schema) && AllFit(schema, rs) && k <= |rs|
    requires n < |EncodeAll(schema, rs)| && EncodeAll(schema, rs)[n] == 0
    ensures n != |EncodeAll(schema, rs[..k])|
  {
    if k < |rs| {
      BoundaryIsTag(schema, rs, k);
    } else {
      assert rs[..k] == rs;
    }
  }

  // ---- the socket ---------------------------------------------------------------------------

  lemma {:induction false} ApplyElsewhere(schema: Schema, msg: Message, rs: seq<Record>)
    requires WellTyped(schema, msg) && AllFit(schema, rs) && |schema| > 0
    requires forall j | 0 <= j < |rs| :: rs[j].i > 0
    ensures ApplyAll(schema, msg, rs)[0] == msg[0]
    decreases |rs|
  {
    if rs != [] {
      ApplyElsewhere(schema, Apply(schema, msg, rs[0]), rs[1..]);
    }
  }

  /** A non-empty prefix of a serialization that still parses has the original first field. */
  lemma PrefixKeepsFirst(schema: Schema, msg: Message, order: seq<Bytes>, n: nat)
    requires Serializable(schema, msg, order) && |schema| > 0 && schema[0].KText?
    requires 0 < n <= |Serialize(schema, msg, order)|
    requires ParseMessage(schema, Serialize(schema, msg, order)[..n]).Parsed?
    ensures ParseMessage(schema, Serialize(schema, msg, order)[..n]).value[0] == msg[0]
  {
    hide ParseInto;
    SerializableFits(schema, msg, order);
    var rs := Records(msg, order);
    PrefixParse(schema, Default(schema), rs, n);
    var k := Whole(schema, rs, n);
    var got := rs[..k];
    FirstField(schema, msg, order, k);
  }

  lemma FirstField(schema: Schema, msg: Message, order: seq<Bytes>, k: nat)
    requires WellTyped(schema, msg) && OrdersMaps(msg, order) && |schema| > 0 && schema[0].KText?
    requires AllFit(schema, Records(msg, order)) && 0 < k <= |Records(msg, order)|
    ensures ApplyAll(schema, Default(schema), Records(msg, order)[..k])[0] == msg[0]
  {
    hide ApplyAll, RecordsFrom;
    var got := Records(msg, order)[..k];
    FirstRecord(schema, msg, order);
    if msg[0].s == [] {
      ApplyElsewhere(schema, Default(schema), got);
    } else {
      var next := Apply(schema, Default(schema), got[0]);
      ApplyElsewhere(schema, next, got[1..]);
      ApplyFirst(schema, Default(schema), got);
    }
  }

  lemma ApplyFirst(schema: Schema, msg: Message, rs: seq<Record>)
    requires WellTyped(schema, msg) && AllFit(schema, rs) && rs != []
    ensures ApplyAll(schema, msg, rs) == ApplyAll(schema, Apply(schema, msg, rs[0]), rs[1..])
  {}

  lemma FirstRecord(schema: Schema, msg: Message, order: seq<Bytes>)
    requires WellTyped(schema, msg) && OrdersMaps(msg, order) && |schema| > 0 && schema[0].KText?
    ensures var rs := Records(msg, order);
      && (msg[0].s == [] ==> forall j | 0 <= j < |rs| :: rs[j].i > 0)
      && (msg[0].s != [] ==> rs != [] && rs[0] == RText(0, msg[0].s) && forall j | 1 <= j < |rs| :: rs[j].i > 0)
  {
    var rs, tail := Records(msg, order), RecordsFrom(msg, order, 1);
    assert rs == FieldRecords(0, msg[0], order) + tail;
    forall j | 0 <= j < |tail| ensures tail[j].i > 0 {
      RecordsTyped(schema, msg, order, 1, tail[j]);
    }
  }

  // ---- tasks and results ----------------------------------------------------------------------

  predicate CleanText(s: Bytes)
  {
    0 !in s && ValidUtf8(s)
  }

  predicate CleanMap(m: map<Bytes, Bytes>)
  {
    forall k | k in m :: k != [] && CleanText(k) && m[k] != [] && CleanText(m[k])
  }

  /** The condition under which a task travels the broker, field by field. */
  predicate TaskTravels(t: Task)
  {
    CleanText(t.taskId) && CleanText(t.content) && CleanText(t.workerId) && CleanMap(t.metadata)
  }

  predicate ResultTravels(r: TaskResult)
  {
    CleanText(r.taskId) && CleanText(r.output) && CleanText(r.errorMessage) && CleanText(r.workerId)
  }

  ghost predicate TaskSendable(t: Task, order: seq<Bytes>)
  {
    Serializable(TASK, TaskMessage(t), order)
  }

  ghost function TaskBytes(t: Task, order: seq<Bytes>): Bytes
    requires TaskSendable(t, order)
  {
    Serialize(TASK, TaskMessage(t), order)
  }

  /** A result has no map, so there is one serialization. */
  ghost predicate ResultSendable(r: TaskResult)
  {
    Serializable(RESULT, ResultMessage(r), [])
  }

  ghost function ResultBytes(r: TaskResult): Bytes
    requires ResultSendable(r)
  {
    Serialize(RESULT, ResultMessage(r), [])
  }

  lemma TaskTravelsMeans(t: Task)
    ensures TaskTravels(t) <==> MessageNulFree(TaskMessage(t)) && MessageUtf8(TaskMessage(t))
  {
    var m := TaskMessage(t);
    assert ValueNulFree(m[0]) && ValueUtf8(m[0]) <==> CleanText(t.taskId);
    assert ValueNulFree(m[2]) && ValueUtf8(m[2]) <==> CleanText(t.content);
    assert ValueNulFree(m[3]) && ValueUtf8(m[3]) <==> CleanText(t.workerId);
    assert ValueNulFree(m[5]) && ValueUtf8(m[5]) <==> CleanMap(t.metadata);
  }

  lemma ResultTravelsMeans(r: TaskResult)
    ensures ResultTravels(r) <==> MessageNulFree(ResultMessage(r)) && MessageUtf8(ResultMessage(r))
  {
    var m := ResultMessage(r);
    assert ValueNulFree(m[0]) && ValueUtf8(m[0]) <==> CleanText(r.taskId);
    assert ValueNulFree(m[2]) && ValueUtf8(m[2]) <==> CleanText(r.output);
    assert ValueNulFree(m[3]) && ValueUtf8(m[3]) <==> CleanText(r.errorMessage);
    assert ValueNulFree(m[10]) && ValueUtf8(m[10]) <==> CleanText(r.workerId);
  }

  lemma TaskBack(t: Task)
    requires WellTyped(TASK, TaskMessage(t))
    ensures TaskOf(TaskMessage(t)) == t
  {}

  lemma ResultBack(r: TaskResult)
    requires WellTyped(RESULT, ResultMessage(r))
    ensures ResultOf(ResultMessage(r)) == r
  {}

  /** publishTask and consumeTask: a task arrives unchanged, in any map iteration order, exactly when
      TaskTravels holds; otherwise the consumer fails to parse. */
  lemma TaskDelivery(t: Task, order: seq<Bytes>)
    requires TaskSendable(t, order)
    ensures TaskParse(CString(TaskBytes(t, order))) == if TaskTravels(t) then Parsed(t) else Malformed
  {
    hide ParseMessage, TaskTravels, MessageNulFree, MessageUtf8, Serialize, CString;
    Delivery(TASK, TaskMessage(t), order);
    TaskTravelsMeans(t);
    TaskBack(t);
  }

  /** publishResult and consumeResult, and equally HSET and HGET: a result comes back unchanged
      exactly when ResultTravels holds. */
  lemma ResultDelivery(r: TaskResult)
    requires ResultSendable(r)
    ensures ResultParse(CString(ResultBytes(r))) == if ResultTravels(r) then Parsed(r) else Malformed
  {
    hide ParseMessage, ResultTravels, MessageNulFree, MessageUtf8, Serialize, CString;
    Delivery(RESULT, ResultMessage(r), []);
    ResultTravelsMeans(r);
    ResultBack(r);
  }

  const SOCKET_BUFFER := 4096

  predicate TaskUtf8(t: Task)
  {
    && ValidUtf8(t.taskId) && ValidUtf8(t.content) && ValidUtf8(t.workerId)
    && forall k | k in t.metadata :: ValidUtf8(k) && ValidUtf8(t.metadata[k])
  }

  lemma TaskUtf8Means(t: Task)
    ensures TaskUtf8(t) <==> MessageUtf8(TaskMessage(t))
  {
    var m := TaskMessage(t);
    assert ValueUtf8(m[0]) <==> ValidUtf8(t.taskId);
    assert ValueUtf8(m[2]) <==> ValidUtf8(t.content);
    assert ValueUtf8(m[3]) <==> ValidUtf8(t.workerId);
    assert ValueUtf8(m[5]) <==> forall k | k in t.metadata :: ValidUtf8(k) && ValidUtf8(t.metadata[k]);
  }

  /** The scheduler reads once: the read returns some bytes of the submission, at most a buffer full. */
  ghost predicate CanRead(t: Task, order: seq<Bytes>, n: nat)
    requires TaskSendable(t, order)
  {
    n <= |TaskBytes(t, order)| && n <= SOCKET_BUFFER
  }

  ghost function SocketRead(t: Task, order: seq<Bytes>, n: nat): Bytes
    requires TaskSendable(t, order) && CanRead(t, order, n)
  {
    TaskBytes(t, order)[..n]
  }

  /** Every field is the whole task's or unset, and the metadata is some of its metadata. */
  predicate PartTask(part: Task, whole: Task)
  {
    && (part.taskType == whole.taskType || part.taskType == 0)
    && (part.content == whole.content || part.content == [])
    && (part.workerId == whole.workerId || part.workerId == [])
    && forall k | k in part.metadata :: k in whole.metadata && whole.metadata[k] == part.metadata[k]
  }

  lemma PartTaskMeans(part: Task, whole: Task)
    requires PartMessage(TaskMessage(part), TaskMessage(whole))
    ensures PartTask(part, whole)
  {
    var p, w := TaskMessage(part), TaskMessage(whole);
    assert PartValue(p[1], w[1]) && PartValue(p[2], w[2]) && PartValue(p[3], w[3]) && PartValue(p[5], w[5]);
  }

  /** Whatever the scheduler parses from a non-empty read has the submitted id and is part of the
      submitted task, and it is that task exactly when the read returned all of it and its strings are
      UTF-8. */
  lemma SocketReceipt(t: Task, order: seq<Bytes>, n: nat)
    requires TaskSendable(t, order) && CanRead(t, order, n) && n > 0
    ensures var got := TaskParse(SocketRead(t, order, n));
      && (got.Parsed? ==> got.value.taskId == t.taskId && PartTask(got.value, t))
      && (got == Parsed(t) <==> n == |TaskBytes(t, order)| && TaskUtf8(t))
  {
    hide ParseMessage, Serialize, MessageUtf8, TaskUtf8, PartMessage, PartTask;
    PrefixExact(TASK, TaskMessage(t), order, n);
    TaskUtf8Means(t);
    TaskBack(t);
    if TaskParse(SocketRead(t, order, n)).Parsed? {
      PrefixKeepsFirst(TASK, TaskMessage(t), order, n);
      PrefixIsPart(TASK, TaskMessage(t), order, n);
      PartTaskMeans(TaskParse(SocketRead(t, order, n)).value, t);
    }
  }

  /** Only the task with every field unset has an empty serialization. */
  lemma EmptyBytes(t: Task, order: seq<Bytes>)
    requires TaskSendable(t, order)
    ensures TaskBytes(t, order) == [] <==> t == EMPTY_TASK
  {
    hide Serialize, MessageUtf8, RecordsFrom;
    var m := TaskMessage(t);
    if TaskBytes(t, order) == [] {
      RoundTrip(TASK, m, order);
      assert ParseMessage(TASK, []) == Parsed(Default(TASK));
      assert m == Default(TASK);
      TaskBack(t);
      TaskBack(EMPTY_TASK);
    } else if t == EMPTY_TASK {
      NoRecords(order);
    }
  }

  lemma SomeKey(order: seq<Bytes>)
    requires order != []
    ensures exists k :: k in order
  {
    assert order[0] in order;
  }

  predicate Unset(v: Value)
  {
    v == Text([]) || v == Num(0) || v == Dict(map[])
  }

  lemma UnsetField(i: nat, v: Value, order: seq<Bytes>)
    requires Unset(v) && (v.Dict? ==> IsOrder(order, v.m))
    ensures FieldRecords(i, v, order) == []
  {
    if v.Dict? && order != [] {
      SomeKey(order);
    }
  }

  lemma {:induction false} UnsetRecords(msg: Message, order: seq<Bytes>, i: nat)
    requires i <= |msg| && OrdersMaps(msg, order) && forall j | i <= j < |msg| :: Unset(msg[j])
    ensures RecordsFrom(msg, order, i) == []
    decreases |msg| - i
  {
    hide FieldRecords, Unset, IsOrder;
    if i < |msg| {
      UnsetRecords(msg, order, i + 1);
      UnsetField(i, msg[i], order);
    }
  }

  lemma NoRecords(order: seq<Bytes>)
    requires TaskSendable(EMPTY_TASK, order)
    ensures TaskBytes(EMPTY_TASK, order) == []
  {
    hide RecordsFrom, RecordsSize, IsOrder;
    UnsetRecords(TaskMessage(EMPTY_TASK), order, 0);
  }

  /** Some read can hand the scheduler the submitted task exactly when the task sets a field, its strings
      are UTF-8, and it is no longer than the read buffer. */
  lemma SocketExact(t: Task, order: seq<Bytes>)
    requires TaskSendable(t, order)
    ensures (exists n: nat | CanRead(t, order, n) && n > 0 :: TaskParse(SocketRead(t, order, n)) == Parsed(t)) <==>
            t != EMPTY_TASK && TaskUtf8(t) && |TaskBytes(t, order)| <= SOCKET_BUFFER
  {
    hide TaskSendable, TaskBytes, TaskParse, TaskUtf8;
    EmptyBytes(t, order);
    forall n: nat | CanRead(t, order, n) && n > 0
      ensures TaskParse(SocketRead(t, order, n)) == Parsed(t) <==> n == |TaskBytes(t, order)| && TaskUtf8(t)
    {
      SocketReceipt(t, order, n);
    }
    if t != EMPTY_TASK && TaskUtf8(t) && |TaskBytes(t, order)| <= SOCKET_BUFFER {
      assert CanRead(t, order, |TaskBytes(t, order)|);
    }
  }

  // ---- Redis ----------------------------------------------------------------------------------

  /** The reply of getTaskResult when there is nothing: the characters NO_RESULT. */
  const NO_RESULT: Bytes := [78, 79, 95, 82, 69, 83, 85, 76, 84]

  /** No stored result can be mistaken for the absence of one. */
  lemma NeverNoResult(r: TaskResult)
    requires ResultSendable(r)
    ensures CString(ResultBytes(r)) != NO_RESULT
  {
    hide ParseInto, Body;
    SerializableFits(RESULT, ResultMessage(r), []);
    var rs := Records(ResultMessage(r), []);
    if rs != [] {
      BoundaryIsTag(RESULT, rs, 0);
      assert rs[..0] == [];
      assert ResultBytes(r)[0] % 8 != 6;
    }
  }

  /** The result field of each key's hash. Keys and values are handed over as C strings. */
  class RedisStore {
    var results: map<Bytes, Bytes>

    constructor ()
      ensures results == map[]
    {
      results := map[];
    }

    /** `stored` and `expiring` are the replies of HSET and EXPIRE. */
    method SetTaskResult(taskId: Bytes, r: TaskResult, stored: bool, expiring: bool) returns (ok: bool)
      requires ResultSendable(r)
      modifies this
      ensures ok == (stored && expiring)
      ensures results == if stored then old(results)[CString(taskId) := CString(ResultBytes(r))] else old(results)
    {
      hide Serializable, Serialize;
      var resultData := SerializeResult(r, []);
      if !stored {
        return false;
      }
      results := results[CString(taskId) := CString(resultData)];
      ok := expiring;
    }

    /** What a query for this id finds. */
    function Fetched(taskId: Bytes): Bytes
      reads this
    {
      if CString(taskId) in results then results[CString(taskId)] else NO_RESULT
    }

    /** `answered` when HGET came back with a string or with nil. */
    method GetTaskResult(taskId: Bytes, answered: bool) returns (res: Bytes)
      ensures res == if answered then Fetched(taskId) else NO_RESULT
    {
      res := NO_RESULT;
      if answered && CString(taskId) in results {
        res := results[CString(taskId)];
      }
    }

    /** `deleted` is the reply of HDEL. Afterwards no id with the same C string finds anything, and every
        other id finds what it found before. */
    method DeleteTaskResult(taskId: Bytes, deleted: bool) returns (ok: bool)
      modifies this
      ensures ok == deleted && results == if deleted then old(results) - {CString(taskId)} else old(results)
      ensures forall id ::
        Fetched(id) == (if deleted && CString(id) == CString(taskId) then NO_RESULT else old(Fetched(id)))
    {
      if deleted {
        results := results - {CString(taskId)};
      }
      ok := deleted;
    }
  }

  /** publishTaskImpl: serialize, then hand the buffer over as a C string. */
  method PublishTask(t: Task, order: seq<Bytes>) returns (wire: Bytes)
    requires TaskSendable(t, order)
    ensures wire == CString(TaskBytes(t, order))
  {
    hide Serializable, Serialize;
    var serialized := SerializeTask(t, order);
    wire := CString(serialized);
  }

  method PublishResult(r: TaskResult) returns (wire: Bytes)
    requires ResultSendable(r)
    ensures wire == CString(ResultBytes(r))
  {
    hide Serializable, Serialize;
    var serialized := SerializeResult(r, []);
    wire := CString(serialized);
  }

  /** From the scheduler to the worker: what consumeTaskImpl hands to its callback. */
  method TaskJourney(t: Task, order: seq<Bytes>) returns (got: Parse<Task>)
    requires TaskSendable(t, order)
    ensures got == if TaskTravels(t) then Parsed(t) else Malformed
  {
    hide TaskParse, TaskBytes, TaskTravels, CString;
    TaskDelivery(t, order);
    var body := PublishTask(t, order);
    got := ParseTask(body);
  }

  /** One look of the client at one id. */
  datatype Look = NothingYet | Taken(result: Parse<TaskResult>)

  /** The client's query for one id: fetch, and when something is there delete it and parse it. */
  method TakeResult(store: RedisStore, taskId: Bytes, answered: bool, deleted: bool) returns (got: Look)
    modifies store
    ensures var found := old(store.Fetched(taskId));
      && got == (if answered && found != NO_RESULT then Taken(ResultParse(found)) else NothingYet)
      && store.results ==
         (if got.Taken? && deleted then old(store.results) - {CString(taskId)} else old(store.results))
    ensures got.Taken? && deleted ==> store.Fetched(taskId) == NO_RESULT
  {
    hide ResultParse, CString;
    got := NothingYet;
    var fetched := store.GetTaskResult(taskId, answered);
    if fetched != NO_RESULT {
      var ok := store.DeleteTaskResult(taskId, deleted);
      var parsed := ParseResult(fetched);
      got := Taken(parsed);
    }
  }

  /** From the worker to the client: published as a C string, parsed by the scheduler, stored in Redis
      under its own id as a C string, taken and parsed by the client. When the result travels, is stored
      and the query is answered, the client gets exactly the published result, found under exactly its
      id; otherwise it gets nothing of it. */
  method ResultJourney(store: RedisStore, r: TaskResult, stored: bool, expiring: bool, answered: bool, deleted: bool)
    returns (got: Look)
    requires ResultSendable(r)
    modifies store
    ensures got == if ResultTravels(r) && stored && answered then Taken(Parsed(r)) else NothingYet
    ensures store.results ==
      if !(ResultTravels(r) && stored) then old(store.results)
      else if answered && deleted then old(store.results) - {r.taskId}
      else old(store.results)[r.taskId := CString(ResultBytes(r))]
  {
    hide ResultParse, ResultBytes, CString;
    ResultDelivery(r);
    var body := PublishResult(r);
    var received := ParseResult(body);
    got := NothingYet;
    if received.Parsed? {
      CStringWhole(r.taskId);
      NeverNoResult(r);
      var ok := store.SetTaskResult(received.value.taskId, received.value, stored, expiring);
      if stored {
        got := TakeResult(store, received.value.taskId, answered, deleted);
      }
    }
  }
}
