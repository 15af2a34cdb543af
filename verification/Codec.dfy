/** Serialization, parsing, size and merging of proto3 messages, for any table of at most fifteen
    fields numbered from one. The generated code is one instance of this per message; the tables of
    the four messages are in module Messages. */
module Codec {
  import opened Wire

  datatype Kind = KText | KEnum | KInt64 | KInt32 | KBool | KMap

  datatype Value = Text(s: Bytes) | Num(n: int) | Dict(m: map<Bytes, Bytes>)

  /** Field `i` of a schema has field number i + 1. */
  type Schema = seq<Kind>
  type Message = seq<Value>

  datatype Parse<T> = Parsed(value: T) | Malformed | Unmodelled

  const ENTRY: Schema := [KText, KText]

  predicate ValidSchema(schema: Schema)
  {
    |schema| <= 15
  }

  predicate InRange(kind: Kind, n: int)
  {
    match kind
    case KEnum => -POW31 <= n < POW31
    case KInt32 => -POW31 <= n < POW31
    case KInt64 => -POW63 <= n < POW63
    case KBool => n == 0 || n == 1
    case _ => false
  }

  predicate HasKind(kind: Kind, v: Value)
  {
    match v
    case Text(_) => kind.KText?
    case Dict(_) => kind.KMap?
    case Num(n) => InRange(kind, n)
  }

  predicate WellTyped(schema: Schema, msg: Message)
  {
    |msg| == |schema| && forall i | 0 <= i < |schema| :: HasKind(schema[i], msg[i])
  }

  function DefaultValue(kind: Kind): (v: Value)
    ensures HasKind(kind, v)
  {
    match kind
    case KText => Text([])
    case KMap => Dict(map[])
    case _ => Num(0)
  }

  function Default(schema: Schema): (msg: Message)
    ensures WellTyped(schema, msg)
  {
    seq(|schema|, i requires 0 <= i < |schema| => DefaultValue(schema[i]))
  }

  /** Field number and wire type: two for strings and map entries, zero for varints. */
  function Tag(i: nat, kind: Kind): nat
  {
    (i + 1) * 8 + if kind.KText? || kind.KMap? then 2 else 0
  }

  // ---- records ------------------------------------------------------------------------------

  /** One field as it stands in a serialization; a map contributes one record per entry. */
  datatype Record = RText(i: nat, s: Bytes) | RNum(i: nat, n: int) | REntry(i: nat, key: Bytes, value: Bytes)

  predicate Fits(schema: Schema, r: Record)
  {
    && r.i < |schema|
    && match r
       case RText(i, s) => schema[i].KText? && |s| < POW31
       case RNum(i, n) => InRange(schema[i], n)
       case REntry(i, key, value) => schema[i].KMap? && |EntryBytes(key, value)| < POW31
  }

  predicate CleanUtf8(r: Record)
  {
    match r
    case RText(_, s) => ValidUtf8(s)
    case RNum(_, _) => true
    case REntry(_, key, value) => ValidUtf8(key) && ValidUtf8(value)
  }

  /** A map entry is a message with the key as field one and the value as field two; both are
      always written. */
  function EntryBytes(key: Bytes, value: Bytes): Bytes
  {
    [Tag(0, KText)] + Delimited(key) + ([Tag(1, KText)] + Delimited(value))
  }

  function Body(schema: Schema, r: Record): Bytes
    requires Fits(schema, r)
  {
    match r
    case RText(_, s) => Delimited(s)
    case RNum(_, n) => Varint(ToWire(n))
    case REntry(_, key, value) => Delimited(EntryBytes(key, value))
  }

  function Encode(schema: Schema, r: Record): Bytes
    requires ValidSchema(schema) && Fits(schema, r)
  {
    [Tag(r.i, schema[r.i])] + Body(schema, r)
  }

  function Apply(schema: Schema, msg: Message, r: Record): (out: Message)
    requires WellTyped(schema, msg) && Fits(schema, r)
    ensures WellTyped(schema, out)
  {
    match r
    case RText(i, s) => msg[i := Text(s)]
    case RNum(i, n) => msg[i := Num(n)]
    case REntry(i, key, value) => msg[i := Dict(msg[i].m[key := value])]
  }

  ghost predicate AllFit(schema: Schema, rs: seq<Record>)
  {
    forall j | 0 <= j < |rs| :: Fits(schema, rs[j])
  }

  ghost predicate AllClean(rs: seq<Record>)
  {
    forall j | 0 <= j < |rs| :: CleanUtf8(rs[j])
  }

  function EncodeAll(schema: Schema, rs: seq<Record>): Bytes
    requires ValidSchema(schema) && AllFit(schema, rs)
  {
    if rs == [] then [] else Encode(schema, rs[0]) + EncodeAll(schema, rs[1..])
  }

  function ApplyAll(schema: Schema, msg: Message, rs: seq<Record>): (out: Message)
    requires WellTyped(schema, msg) && AllFit(schema, rs)
    ensures WellTyped(schema, out)
    decreases |rs|
  {
    if rs == [] then msg else ApplyAll(schema, Apply(schema, msg, rs[0]), rs[1..])
  }

  // ---- parsing ------------------------------------------------------------------------------

  function FromWire(kind: Kind, u: nat): (n: int)
    requires u < POW64 && !kind.KText? && !kind.KMap?
    ensures InRange(kind, n)
  {
    match kind
    case KInt64 => AsInt64(u)
    case KBool => if u != 0 then 1 else 0
    case _ => AsInt32(u)
  }

  /** What follows a tag: the field's new value and the bytes used, or a failure. */
  datatype Payload = Field(value: Value, used: nat) | Broken | Foreign

  function ReadPayload(kind: Kind, prior: Value, s: Bytes): (p: Payload)
    requires HasKind(kind, prior)
    ensures p.Field? ==> HasKind(kind, p.value) && 0 < p.used <= |s|
    decreases |s|, 0
  {
    if kind.KText? then
      match ReadDelimited(s)
      case Bad => Broken
      case Got(text, used) => if ValidUtf8(text) then Field(Text(text), used) else Broken
    else if kind.KMap? then
      match ReadDelimited(s)
      case Bad => Broken
      case Got(entry, used) =>
        match ParseInto(ENTRY, Default(ENTRY), entry)
        case Parsed(kv) => Field(Dict(prior.m[kv[0].s := kv[1].s]), used)
        case Malformed => Broken
        case Unmodelled => Foreign
    else
      match ReadVarint(s, VARINT_LIMIT)
      case Bad => Broken
      case Got(v, used) => Field(Num(FromWire(kind, v % POW64)), used)
  }

  /** Parses all of `s` on top of `msg`, field by field. A zero tag or an end-group tag ends the
      message early, which the caller rejects; any other unknown tag is outside the model. */
  function ParseInto(schema: Schema, msg: Message, s: Bytes): (r: Parse<Message>)
    requires ValidSchema(schema) && WellTyped(schema, msg)
    ensures r.Parsed? ==> WellTyped(schema, r.value)
    decreases |s|, 1
  {
    if s == [] then Parsed(msg)
    else match ReadVarint(s, TAG_LIMIT)
      case Bad => Malformed
      case Got(v, used) =>
        var tag := v % POW32;
        var i := tag / 8 - 1;
        if 0 <= i < |schema| && tag == Tag(i, schema[i]) then
          match ReadPayload(schema[i], msg[i], s[used..])
          case Broken => Malformed
          case Foreign => Unmodelled
          case Field(value, n) => ParseInto(schema, msg[i := value], s[used + n..])
        else if tag == 0 || tag % 8 == 4 then Malformed
        else Unmodelled
  }

  function ParseMessage(schema: Schema, s: Bytes): (r: Parse<Message>)
    requires ValidSchema(schema)
    ensures r.Parsed? ==> WellTyped(schema, r.value)
  {
    ParseInto(schema, Default(schema), s)
  }

  // ---- whole messages ---------------------------------------------------------------------------

  /** One possible iteration order over a map: each key once. */
  ghost predicate IsOrder(order: seq<Bytes>, m: map<Bytes, Bytes>)
  {
    && (forall k :: k in order <==> k in m)
    && forall i, j | 0 <= i < j < |order| :: order[i] != order[j]
  }

  ghost predicate OrdersMaps(msg: Message, order: seq<Bytes>)
  {
    forall i | 0 <= i < |msg| && msg[i].Dict? :: IsOrder(order, msg[i].m)
  }

  /** The records of one field: none for a default, one per entry for a map. */
  ghost function FieldRecords(i: nat, v: Value, order: seq<Bytes>): seq<Record>
    requires v.Dict? ==> IsOrder(order, v.m)
  {
    match v
    case Text(s) => if s == [] then [] else [RText(i, s)]
    case Num(n) => if n == 0 then [] else [RNum(i, n)]
    case Dict(m) => seq(|order|, j requires 0 <= j < |order| => REntry(i, order[j], m[order[j]]))
  }

  ghost function RecordsFrom(msg: Message, order: seq<Bytes>, i: nat): seq<Record>
    requires i <= |msg| && OrdersMaps(msg, order)
    decreases |msg| - i
  {
    if i == |msg| then [] else FieldRecords(i, msg[i], order) + RecordsFrom(msg, order, i + 1)
  }

  ghost function Records(msg: Message, order: seq<Bytes>): seq<Record>
    requires OrdersMaps(msg, order)
  {
    RecordsFrom(msg, order, 0)
  }

  function DelimitedSize(length: nat): nat
  {
    |Varint(length)| + length
  }

  function EntrySize(key: Bytes, value: Bytes): nat
  {
    2 + DelimitedSize(|key|) + DelimitedSize(|value|)
  }

  function RecordSize(r: Record): nat
  {
    match r
    case RText(_, s) => 1 + DelimitedSize(|s|)
    case RNum(_, n) => 1 + if -POW63 <= n < POW63 then |Varint(ToWire(n))| else 0
    case REntry(_, key, value) => 1 + DelimitedSize(EntrySize(key, value))
  }

  function RecordsSize(rs: seq<Record>): nat
  {
    if rs == [] then 0 else RecordSize(rs[0]) + RecordsSize(rs[1..])
  }

  /** A message can be serialized when its size is below two gigabytes. */
  ghost predicate Serializable(schema: Schema, msg: Message, order: seq<Bytes>)
  {
    && ValidSchema(schema) && WellTyped(schema, msg) && OrdersMaps(msg, order)
    && RecordsSize(Records(msg, order)) < POW31
  }

  lemma {:induction false} RecordsTyped(schema: Schema, msg: Message, order: seq<Bytes>, i: nat, r: Record)
    requires WellTyped(schema, msg) && OrdersMaps(msg, order) && i <= |msg|
    requires r in RecordsFrom(msg, order, i)
    ensures i <= r.i < |schema|
    ensures match r
      case RText(j, s) => schema[j].KText? && msg[j] == Text(s) && s != []
      case RNum(j, n) => InRange(schema[j], n) && msg[j] == Num(n) && n != 0
      case REntry(j, key, value) => schema[j].KMap? && msg[j].Dict? && key in msg[j].m && msg[j].m[key] == value
    decreases |msg| - i
  {
    if i < |msg| && r !in FieldRecords(i, msg[i], order) {
      RecordsTyped(schema, msg, order, i + 1, r);
    }
  }

  lemma {:induction false} RecordsSizeEach(rs: seq<Record>, j: nat)
    requires j < |rs|
    ensures RecordSize(rs[j]) <= RecordsSize(rs)
  {
    if j > 0 {
      RecordsSizeEach(rs[1..], j - 1);
    }
  }

  lemma SerializableFits(schema: Schema, msg: Message, order: seq<Bytes>)
    requires Serializable(schema, msg, order)
    ensures AllFit(schema, Records(msg, order))
  {
    var rs := Records(msg, order);
    forall j | 0 <= j < |rs| ensures Fits(schema, rs[j]) {
      RecordsTyped(schema, msg, order, 0, rs[j]);
      RecordsSizeEach(rs, j);
    }
  }

  /** _InternalSerialize: the records in field order, defaults left out. */
  ghost function Serialize(schema: Schema, msg: Message, order: seq<Bytes>): Bytes
    requires Serializable(schema, msg, order)
  {
    SerializableFits(schema, msg, order);
    EncodeAll(schema, Records(msg, order))
  }

  /** MergeImpl: a non-default scalar of `from` wins, map entries of `from` win. */
  function MergeValue(to: Value, from: Value): Value
    requires (to.Dict? <==> from.Dict?) && (to.Text? <==> from.Text?)
  {
    match from
    case Text(s) => if s == [] then to else from
    case Num(n) => if n == 0 then to else from
    case Dict(m) => Dict(to.m + m)
  }

  function Merge(schema: Schema, to: Message, from: Message): (out: Message)
    requires WellTyped(schema, to) && WellTyped(schema, from)
    ensures WellTyped(schema, out)
  {
    seq(|schema|, i requires 0 <= i < |schema| => MergeValue(to[i], from[i]))
  }
}
