/** ByteSizeLong and MergeImpl, statement by statement. The size is summed in the source's order and
    over its own walk of the map; it is the serialized length whatever order the serializer uses. */
module MessageSize {
  import opened Sums
  import opened Wire
  import opened Codec
  import opened Messages
  import opened CodecTheorems

  function EntryRecordSize(m: map<Bytes, Bytes>): Bytes -> int
  {
    key => if key in m then 1 + DelimitedSize(EntrySize(key, m[key])) else 0
  }

  function FieldSize(v: Value, order: seq<Bytes>): int
  {
    match v
    case Text(s) => if s == [] then 0 else 1 + DelimitedSize(|s|)
    case Num(n) => if n == 0 then 0 else RecordSize(RNum(0, n))
    case Dict(m) => Sum(order, EntryRecordSize(m))
  }

  lemma {:induction false} RecordsSizeConcat(a: seq<Record>, b: seq<Record>)
    ensures RecordsSize(a + b) == RecordsSize(a) + RecordsSize(b)
  {
    if a == [] {
      assert a + b == b;
    } else {
      assert (a + b)[1..] == a[1..] + b;
      RecordsSizeConcat(a[1..], b);
    }
  }

  lemma {:induction false} EntriesSize(i: nat, m: map<Bytes, Bytes>, keys: seq<Bytes>, rs: seq<Record>)
    requires |rs| == |keys|
    requires forall j | 0 <= j < |keys| :: keys[j] in m && rs[j] == REntry(i, keys[j], m[keys[j]])
    ensures RecordsSize(rs) == Sum(keys, EntryRecordSize(m))
    decreases |keys|
  {
    if keys != [] {
      var n := |keys| - 1;
      EntriesSize(i, m, keys[..n], rs[..n]);
      assert rs == rs[..n] + [rs[n]] && keys == keys[..n] + [keys[n]];
      RecordsSizeConcat(rs[..n], [rs[n]]);
      SumAppend(keys[..n], keys[n], EntryRecordSize(m));
    }
  }

  lemma FieldSizeIs(i: nat, v: Value, order: seq<Bytes>)
    requires v.Dict? ==> IsOrder(order, v.m)
    ensures RecordsSize(FieldRecords(i, v, order)) == FieldSize(v, order)
  {
    var rs := FieldRecords(i, v, order);
    if v.Dict? {
      EntriesSize(i, v.m, order, rs);
    } else if rs != [] {
      assert rs[1..] == [];
      assert RecordsSize(rs) == RecordSize(rs[0]);
    }
  }

  lemma {:induction false} OrderElements(order: seq<Bytes>, m: map<Bytes, Bytes>)
    requires IsOrder(order, m)
    ensures multiset(order) == multiset(m.Keys)
  {
    forall k ensures multiset(order)[k] == multiset(m.Keys)[k] {
      CountOnce(order, k);
    }
  }

  lemma {:induction false} CountOnce(order: seq<Bytes>, k: Bytes)
    requires forall i, j | 0 <= i < j < |order| :: order[i] != order[j]
    ensures multiset(order)[k] == if k in order then 1 else 0
  {
    if order != [] {
      var n := |order| - 1;
      assert order == order[..n] + [order[n]];
      CountOnce(order[..n], k);
    }
  }

  /** The size of a field does not depend on the order its map is walked in. */
  lemma FieldSizeAnyOrder(v: Value, one: seq<Bytes>, other: seq<Bytes>)
    requires v.Dict? ==> IsOrder(one, v.m) && IsOrder(other, v.m)
    ensures FieldSize(v, one) == FieldSize(v, other)
  {
    if v.Dict? {
      OrderElements(one, v.m);
      OrderElements(other, v.m);
      SumPermute(one, other, EntryRecordSize(v.m));
    }
  }

  ghost function SizeFrom(msg: Message, order: seq<Bytes>, i: nat): int
    requires i <= |msg|
    decreases |msg| - i
  {
    if i == |msg| then 0 else FieldSize(msg[i], order) + SizeFrom(msg, order, i + 1)
  }

  lemma {:induction false} SizeIs(msg: Message, one: seq<Bytes>, other: seq<Bytes>, i: nat)
    requires OrdersMaps(msg, one) && OrdersMaps(msg, other) && i <= |msg|
    ensures SizeFrom(msg, one, i) == RecordsSize(RecordsFrom(msg, other, i))
    decreases |msg| - i
  {
    hide FieldRecords, RecordsSize, FieldSize;
    if i == |msg| {
      NoSize();
    } else {
      SizeIs(msg, one, other, i + 1);
      FieldSizeAnyOrder(msg[i], one, other);
      FieldSizeIs(i, msg[i], other);
      RecordsSizeConcat(FieldRecords(i, msg[i], other), RecordsFrom(msg, other, i + 1));
    }
  }

  lemma NoSize()
    ensures RecordsSize([]) == 0
  {}

  /** Computed over any walk of the map, the size is the number of bytes any serialization has. */
  lemma SizeMatchesSerialization(schema: Schema, msg: Message, walked: seq<Bytes>, order: seq<Bytes>)
    requires Serializable(schema, msg, order) && OrdersMaps(msg, walked)
    ensures SizeFrom(msg, walked, 0) == |Serialize(schema, msg, order)|
  {
    SizeIs(msg, walked, order, 0);
    SizeExact(schema, msg, order);
  }

  /** The map loop of ByteSizeLong: one tag byte per entry, then every entry's own size. */
  method EntriesByteSize(m: map<Bytes, Bytes>, order: seq<Bytes>) returns (size: nat)
    requires IsOrder(order, m)
    ensures size == FieldSize(Dict(m), order)
  {
    size := 1 * |order|;
    for j := 0 to |order|
      invariant size == |order| - j + SumTo(order, j, EntryRecordSize(m))
    {
      assert order[j] in order;
      size := size + DelimitedSize(EntrySize(order[j], m[order[j]]));
    }
  }

  /** A scalar field contributes nothing when default, else one tag byte and its payload. */
  function ScalarSize(v: Value): (size: nat)
    requires !v.Dict?
    ensures forall order :: size == FieldSize(v, order)
  {
    match v
    case Text(s) => if s != [] then 1 + DelimitedSize(|s|) else 0
    case Num(n) => if n != 0 then RecordSize(RNum(0, n)) else 0
  }

  method TaskByteSize(t: Task, walked: seq<Bytes>) returns (size: nat)
    requires OrdersMaps(TaskMessage(t), walked)
    ensures size == SizeFrom(TaskMessage(t), walked, 0)
  {
    hide FieldSize;
    ghost var msg := TaskMessage(t);
    TaskByteSizeUnrolled(t, walked);
    size := 0;
    assert msg[5] == Dict(t.metadata);
    size := EntriesByteSize(t.metadata, walked);
    size := size + ScalarSize(Text(t.taskId));
    size := size + ScalarSize(Text(t.content));
    size := size + ScalarSize(Text(t.workerId));
    size := size + ScalarSize(Num(t.taskType));
    size := size + ScalarSize(Num(t.status));
    size := size + ScalarSize(Num(t.startSched));
    size := size + ScalarSize(Num(t.endSched));
    size := size + ScalarSize(Num(t.startWorker));
  }

  lemma TaskByteSizeUnrolled(t: Task, order: seq<Bytes>)
    ensures var msg := TaskMessage(t);
      SizeFrom(msg, order, 0) == FieldSize(msg[0], order) + FieldSize(msg[1], order) + FieldSize(msg[2], order) +
        FieldSize(msg[3], order) + FieldSize(msg[4], order) + FieldSize(msg[5], order) + FieldSize(msg[6], order) +
        FieldSize(msg[7], order) + FieldSize(msg[8], order)
  {
    hide FieldSize;
    var msg := TaskMessage(t);
    assert SizeFrom(msg, order, 8) == FieldSize(msg[8], order) + SizeFrom(msg, order, 9);
    assert SizeFrom(msg, order, 6) == FieldSize(msg[6], order) + SizeFrom(msg, order, 7);
    assert SizeFrom(msg, order, 4) == FieldSize(msg[4], order) + SizeFrom(msg, order, 5);
    assert SizeFrom(msg, order, 2) == FieldSize(msg[2], order) + SizeFrom(msg, order, 3);
    assert SizeFrom(msg, order, 0) == FieldSize(msg[0], order) + SizeFrom(msg, order, 1);
  }

  method MergeTask(to: Task, from: Task) returns (out: Task)
    requires WellTyped(TASK, TaskMessage(to)) && WellTyped(TASK, TaskMessage(from))
    ensures TaskMessage(out) == Merge(TASK, TaskMessage(to), TaskMessage(from))
  {
    hide WellTyped, Merge, TaskMessage;
    out := to.(metadata := to.metadata + from.metadata);
    if from.taskId != [] {
      out := out.(taskId := from.taskId);
    }
    if from.content != [] {
      out := out.(content := from.content);
    }
    if from.workerId != [] {
      out := out.(workerId := from.workerId);
    }
    if from.taskType != 0 {
      out := out.(taskType := from.taskType);
    }
    if from.status != 0 {
      out := out.(status := from.status);
    }
    if from.startSched != 0 {
      out := out.(startSched := from.startSched);
    }
    if from.endSched != 0 {
      out := out.(endSched := from.endSched);
    }
    if from.startWorker != 0 {
      out := out.(startWorker := from.startWorker);
    }
    MergedFields(to, from, out);
  }

  lemma MergedFields(to: Task, from: Task, out: Task)
    requires WellTyped(TASK, TaskMessage(to)) && WellTyped(TASK, TaskMessage(from))
    requires out == Task(
      if from.taskId != [] then from.taskId else to.taskId,
      if from.taskType != 0 then from.taskType else to.taskType,
      if from.content != [] then from.content else to.content,
      if from.workerId != [] then from.workerId else to.workerId,
      if from.status != 0 then from.status else to.status,
      to.metadata + from.metadata,
      if from.startSched != 0 then from.startSched else to.startSched,
      if from.endSched != 0 then from.endSched else to.endSched,
      if from.startWorker != 0 then from.startWorker else to.startWorker)
    ensures TaskMessage(out) == Merge(TASK, TaskMessage(to), TaskMessage(from))
  {
    MergedText(to.taskId, from.taskId);
    MergedText(to.content, from.content);
    MergedText(to.workerId, from.workerId);
    MergedNumber(to.taskType, from.taskType);
    MergedNumber(to.status, from.status);
    MergedNumber(to.startSched, from.startSched);
    MergedNumber(to.endSched, from.endSched);
    MergedNumber(to.startWorker, from.startWorker);
    assert MergeValue(Dict(to.metadata), Dict(from.metadata)) == Dict(out.metadata);
    hide MergeValue, WellTyped;
    assert TaskMessage(out) == Merge(TASK, TaskMessage(to), TaskMessage(from));
  }

  lemma MergedText(to: Bytes, from: Bytes)
    ensures MergeValue(Text(to), Text(from)) == Text(if from != [] then from else to)
  {}

  lemma MergedNumber(to: int, from: int)
    ensures MergeValue(Num(to), Num(from)) == Num(if from != 0 then from else to)
  {}
}
