/** The codec's laws, for every schema: any prefix of a serialization parses to the records it holds
    whole or fails, serialization then parsing is the identity, parsing a concatenation merges, the
    computed size is the serialized length, and exactly when a serialization has no zero byte. */
module CodecTheorems {
  import opened Wire
  import opened Codec

  // ---- one record -----------------------------------------------------------------------------

  lemma PayloadStep(schema: Schema, msg: Message, r: Record, rest: Bytes)
    requires ValidSchema(schema) && WellTyped(schema, msg) && Fits(schema, r)
    ensures ReadPayload(schema[r.i], msg[r.i], Body(schema, r) + rest) ==
            if CleanUtf8(r) then Field(Apply(schema, msg, r)[r.i], |Body(schema, r)|) else Broken
    decreases if r.REntry? then 3 else 0
  {
    match r
    case RText(_, s) => DelimitedRoundTrip(s, rest);
    case RNum(i, n) => NumberStep(schema[i], n, rest);
    case REntry(_, key, value) =>
      DelimitedRoundTrip(EntryBytes(key, value), rest);
      EntryStep(key, value);
  }

  lemma NumberStep(kind: Kind, n: int, rest: Bytes)
    requires InRange(kind, n)
    ensures ReadVarint(Varint(ToWire(n)) + rest, VARINT_LIMIT) == Got(ToWire(n), |Varint(ToWire(n))|)
    ensures ToWire(n) < POW64 && FromWire(kind, ToWire(n)) == n
  {
    VarintRoundTrip64(ToWire(n), rest);
    if kind.KInt64? {
      Int64RoundTrip(n);
    } else if !kind.KBool? {
      Int32RoundTrip(n);
    }
  }

  lemma EntryStep(key: Bytes, value: Bytes)
    requires |EntryBytes(key, value)| < POW31
    ensures ParseInto(ENTRY, Default(ENTRY), EntryBytes(key, value)) ==
            if ValidUtf8(key) && ValidUtf8(value) then Parsed([Text(key), Text(value)]) else Malformed
    decreases 2
  {
    var first, second := RText(0, key), RText(1, value);
    var blank := Default(ENTRY);
    RecordStep(ENTRY, blank, first, Encode(ENTRY, second));
    if ValidUtf8(key) {
      var half := Apply(ENTRY, blank, first);
      RecordStep(ENTRY, half, second, []);
      assert Encode(ENTRY, second) + [] == Encode(ENTRY, second);
      assert Apply(ENTRY, half, second) == [Text(key), Text(value)];
    }
  }

  lemma TagStep(s: Bytes)
    requires s != [] && s[0] < 128
    ensures ReadVarint(s, TAG_LIMIT) == Got(s[0], 1)
  {}

  /** A whole record at the front is applied and parsing goes on behind it; one with text that is
      not UTF-8 fails the parse. */
  lemma RecordStep(schema: Schema, msg: Message, r: Record, rest: Bytes)
    requires ValidSchema(schema) && WellTyped(schema, msg) && Fits(schema, r)
    ensures ParseInto(schema, msg, Encode(schema, r) + rest) ==
            if CleanUtf8(r) then ParseInto(schema, Apply(schema, msg, r), rest) else Malformed
    decreases if r.REntry? then 4 else 1
  {
    hide ReadPayload, ReadVarint, Body, CleanUtf8;
    var s := Encode(schema, r) + rest;
    var body := Body(schema, r);
    assert s[1..] == body + rest;
    TagStep(s);
    PayloadStep(schema, msg, r, rest);
    assert s[1 + |body|..] == rest;
    assert Apply(schema, msg, r) == msg[r.i := Apply(schema, msg, r)[r.i]];
  }

  lemma PayloadCut(schema: Schema, msg: Message, r: Record, n: nat)
    requires ValidSchema(schema) && WellTyped(schema, msg) && Fits(schema, r) && n < |Body(schema, r)|
    ensures ReadPayload(schema[r.i], msg[r.i], Body(schema, r)[..n]) == Broken
  {
    hide ParseInto;
    match r
    case RText(_, t) => DelimitedCut(t, n);
    case RNum(_, v) => VarintCut(ToWire(v), n, VARINT_LIMIT);
    case REntry(_, key, value) => DelimitedCut(EntryBytes(key, value), n);
  }

  /** A record cut short fails the parse. */
  lemma RecordCut(schema: Schema, msg: Message, r: Record, n: nat)
    requires ValidSchema(schema) && WellTyped(schema, msg) && Fits(schema, r)
    requires 0 < n < |Encode(schema, r)|
    ensures ParseInto(schema, msg, Encode(schema, r)[..n]) == Malformed
  {
    hide ReadPayload, ReadVarint, Body;
    var s := Encode(schema, r)[..n];
    assert s[1..] == Body(schema, r)[..n - 1];
    TagStep(s);
    PayloadCut(schema, msg, r, n - 1);
  }

  // ---- sequences of records -------------------------------------------------------------------

  /** How many records the first `n` bytes hold whole. */
  function Whole(schema: Schema, rs: seq<Record>, n: nat): (k: nat)
    requires ValidSchema(schema) && AllFit(schema, rs)
    ensures k <= |rs|
  {
    if rs == [] || n < |Encode(schema, rs[0])| then 0
    else 1 + Whole(schema, rs[1..], n - |Encode(schema, rs[0])|)
  }

  /** Any prefix of a serialization parses to exactly the records it holds whole, provided it ends
      at a record boundary and those records are UTF-8; every other prefix fails. */
  lemma {:induction false} PrefixParse(schema: Schema, msg: Message, rs: seq<Record>, n: nat)
    requires ValidSchema(schema) && WellTyped(schema, msg) && AllFit(schema, rs)
    requires n <= |EncodeAll(schema, rs)|
    ensures var k := Whole(schema, rs, n);
      ParseInto(schema, msg, EncodeAll(schema, rs)[..n]) ==
      if n == |EncodeAll(schema, rs[..k])| && AllClean(rs[..k]) then Parsed(ApplyAll(schema, msg, rs[..k]))
      else Malformed
    decreases |rs|
  {
    hide Encode;
    var s := EncodeAll(schema, rs)[..n];
    if n == 0 {
      assert s == [];
      WholeOfNothing(schema, rs);
    } else if rs != [] {
      var first := Encode(schema, rs[0]);
      if n < |first| {
        assert s == first[..n];
        RecordCut(schema, msg, rs[0], n);
      } else {
        PrefixParseFrom(schema, msg, rs, n);
      }
    }
  }

  lemma WholeOfNothing(schema: Schema, rs: seq<Record>)
    requires ValidSchema(schema) && AllFit(schema, rs)
    ensures Whole(schema, rs, 0) == 0
  {}

  lemma PrefixParseFrom(schema: Schema, msg: Message, rs: seq<Record>, n: nat)
    requires ValidSchema(schema) && WellTyped(schema, msg) && AllFit(schema, rs)
    requires rs != [] && |Encode(schema, rs[0])| <= n <= |EncodeAll(schema, rs)|
    ensures var k := Whole(schema, rs, n);
      ParseInto(schema, msg, EncodeAll(schema, rs)[..n]) ==
      if n == |EncodeAll(schema, rs[..k])| && AllClean(rs[..k]) then Parsed(ApplyAll(schema, msg, rs[..k]))
      else Malformed
    decreases |rs|, 0
  {
    hide ParseInto, Encode;
    var first, tail := Encode(schema, rs[0]), rs[1..];
    var m := n - |first|;
    var k := Whole(schema, tail, m);
    assert EncodeAll(schema, rs)[..n] == first + EncodeAll(schema, tail)[..m];
    RecordStep(schema, msg, rs[0], EncodeAll(schema, tail)[..m]);
    assert rs[..k + 1][1..] == tail[..k] && rs[..k + 1][0] == rs[0];
    CleanSplit(rs[..k + 1]);
    if CleanUtf8(rs[0]) {
      PrefixParse(schema, Apply(schema, msg, rs[0]), tail, m);
    }
  }

  lemma CleanSplit(rs: seq<Record>)
    requires rs != []
    ensures AllClean(rs) <==> CleanUtf8(rs[0]) && AllClean(rs[1..])
  {
    if AllClean(rs) {
      forall j | 0 <= j < |rs| - 1 ensures CleanUtf8(rs[1..][j]) { assert rs[1..][j] == rs[j + 1]; }
    } else if CleanUtf8(rs[0]) {
      var j :| 0 <= j < |rs| && !CleanUtf8(rs[j]);
      assert rs[1..][j - 1] == rs[j];
    }
  }

  /** Clean records in front are applied in order and parsing goes on behind them. */
  lemma {:induction false} RecordsStep(schema: Schema, msg: Message, rs: seq<Record>, rest: Bytes)
    requires ValidSchema(schema) && WellTyped(schema, msg) && AllFit(schema, rs) && AllClean(rs)
    ensures ParseInto(schema, msg, EncodeAll(schema, rs) + rest) == ParseInto(schema, ApplyAll(schema, msg, rs), rest)
    decreases |rs|
  {
    hide ParseInto;
    if rs == [] {
      assert EncodeAll(schema, rs) + rest == rest;
    } else {
      assert EncodeAll(schema, rs) + rest == Encode(schema, rs[0]) + (EncodeAll(schema, rs[1..]) + rest);
      RecordStep(schema, msg, rs[0], EncodeAll(schema, rs[1..]) + rest);
      RecordsStep(schema, Apply(schema, msg, rs[0]), rs[1..], rest);
    }
  }

  // ---- applying a message's records is merging it -------------------------------------------------

  /** A record that is not UTF-8 ends the parse, whatever follows. */
  lemma {:induction false} RecordsFail(schema: Schema, msg: Message, rs: seq<Record>, rest: Bytes)
    requires ValidSchema(schema) && WellTyped(schema, msg) && AllFit(schema, rs) && !AllClean(rs)
    ensures ParseInto(schema, msg, EncodeAll(schema, rs) + rest) == Malformed
    decreases |rs|
  {
    hide ParseInto, Encode;
    var tail := EncodeAll(schema, rs[1..]) + rest;
    assert EncodeAll(schema, rs) + rest == Encode(schema, rs[0]) + tail;
    RecordStep(schema, msg, rs[0], tail);
    CleanSplit(rs);
    if CleanUtf8(rs[0]) {
      RecordsFail(schema, Apply(schema, msg, rs[0]), rs[1..], rest);
    }
  }

  lemma {:induction false} ApplyAllAppend(schema: Schema, msg: Message, a: seq<Record>, b: seq<Record>)
    requires WellTyped(schema, msg) && AllFit(schema, a) && AllFit(schema, b) && AllFit(schema, a + b)
    ensures ApplyAll(schema, msg, a + b) == ApplyAll(schema, ApplyAll(schema, msg, a), b)
    decreases |a|
  {
    if a == [] {
      assert a + b == b;
    } else {
      assert (a + b)[1..] == a[1..] + b && (a + b)[0] == a[0];
      ApplyAllAppend(schema, Apply(schema, msg, a[0]), a[1..], b);
    }
  }

  /** Entries of one map field, applied in any order, give the union. */
  lemma {:induction false} EntriesMerge(schema: Schema, acc: Message, i: nat, m: map<Bytes, Bytes>, keys: seq<Bytes>, rs: seq<Record>)
    requires WellTyped(schema, acc) && i < |schema| && schema[i].KMap? && AllFit(schema, rs)
    requires |rs| == |keys|
    requires forall j | 0 <= j < |keys| :: keys[j] in m && rs[j] == REntry(i, keys[j], m[keys[j]])
    ensures ApplyAll(schema, acc, rs) ==
            acc[i := Dict(acc[i].m + map k | k in m && k in keys :: m[k])]
    decreases |rs|
  {
    if rs == [] {
      assert acc[i].m + (map k | k in m && k in keys :: m[k]) == acc[i].m;
      assert acc == acc[i := Dict(acc[i].m)];
    } else {
      var next := Apply(schema, acc, rs[0]);
      EntriesMerge(schema, next, i, m, keys[1..], rs[1..]);
      UnionStep(acc[i].m, m, keys);
    }
  }

  lemma UnionStep(base: map<Bytes, Bytes>, m: map<Bytes, Bytes>, keys: seq<Bytes>)
    requires keys != [] && keys[0] in m
    ensures base[keys[0] := m[keys[0]]] + (map k | k in m && k in keys[1..] :: m[k])
         == base + (map k | k in m && k in keys :: m[k])
  {}

  lemma FieldMerge(schema: Schema, acc: Message, i: nat, v: Value, order: seq<Bytes>)
    requires WellTyped(schema, acc) && i < |schema| && HasKind(schema[i], v)
    requires v.Dict? ==> IsOrder(order, v.m)
    requires AllFit(schema, FieldRecords(i, v, order))
    ensures ApplyAll(schema, acc, FieldRecords(i, v, order)) == acc[i := MergeValue(acc[i], v)]
  {
    var rs := FieldRecords(i, v, order);
    if v.Dict? {
      EntriesMerge(schema, acc, i, v.m, order, rs);
      assert (map k | k in v.m && k in order :: v.m[k]) == v.m;
    } else if rs != [] {
      assert rs[1..] == [];
      assert ApplyAll(schema, acc, rs) == Apply(schema, acc, rs[0]);
    }
  }

  ghost function MergedFrom(schema: Schema, acc: Message, msg: Message, i: nat): Message
    requires WellTyped(schema, acc) && WellTyped(schema, msg) && i <= |schema|
  {
    acc[..i] + Merge(schema, acc, msg)[i..]
  }

  lemma {:induction false} RecordsMergeFrom(schema: Schema, acc: Message, msg: Message, order: seq<Bytes>, i: nat)
    requires WellTyped(schema, acc) && WellTyped(schema, msg) && OrdersMaps(msg, order) && i <= |schema|
    requires AllFit(schema, RecordsFrom(msg, order, i))
    ensures ApplyAll(schema, acc, RecordsFrom(msg, order, i)) == MergedFrom(schema, acc, msg, i)
    decreases |schema| - i
  {
    hide ApplyAll, FieldRecords, MergedFrom;
    if i < |schema| {
      var head, tail := FieldRecords(i, msg[i], order), RecordsFrom(msg, order, i + 1);
      var all := RecordsFrom(msg, order, i);
      assert all == head + tail;
      forall j | 0 <= j < |head| ensures Fits(schema, head[j]) { assert all[j] == head[j]; }
      forall j | 0 <= j < |tail| ensures Fits(schema, tail[j]) { assert all[|head| + j] == tail[j]; }
      ApplyAllAppend(schema, acc, head, tail);
      FieldMerge(schema, acc, i, msg[i], order);
      var next := acc[i := MergeValue(acc[i], msg[i])];
      RecordsMergeFrom(schema, next, msg, order, i + 1);
      MergedStep(schema, acc, msg, i);
    } else {
      MergedNone(schema, acc, msg);
    }
  }

  lemma MergedNone(schema: Schema, acc: Message, msg: Message)
    requires WellTyped(schema, acc) && WellTyped(schema, msg)
    ensures ApplyAll(schema, acc, []) == acc == MergedFrom(schema, acc, msg, |schema|)
  {}

  lemma MergedStep(schema: Schema, acc: Message, msg: Message, i: nat)
    requires WellTyped(schema, acc) && WellTyped(schema, msg) && i < |schema|
    ensures var next := acc[i := MergeValue(acc[i], msg[i])];
      WellTyped(schema, next) && MergedFrom(schema, next, msg, i + 1) == MergedFrom(schema, acc, msg, i)
  {}

  /** The records of a message, applied on top of another, merge it in: last scalar wins, omitted
      defaults leave the earlier value, later map entries win, whatever the iteration order. */
  lemma RecordsMerge(schema: Schema, acc: Message, msg: Message, order: seq<Bytes>)
    requires Serializable(schema, msg, order) && WellTyped(schema, acc)
    ensures AllFit(schema, Records(msg, order))
    ensures ApplyAll(schema, acc, Records(msg, order)) == Merge(schema, acc, msg)
  {
    SerializableFits(schema, msg, order);
    RecordsMergeFrom(schema, acc, msg, order, 0);
  }

  lemma MergeDefault(schema: Schema, msg: Message)
    requires WellTyped(schema, msg)
    ensures Merge(schema, Default(schema), msg) == msg
  {
    forall i | 0 <= i < |schema| ensures Merge(schema, Default(schema), msg)[i] == msg[i] {
      if msg[i].Dict? {
        assert map[] + msg[i].m == msg[i].m;
      }
    }
  }

  // ---- the laws -----------------------------------------------------------------------------------

  predicate ValueUtf8(v: Value)
  {
    match v
    case Text(s) => ValidUtf8(s)
    case Num(_) => true
    case Dict(m) => forall k | k in m :: ValidUtf8(k) && ValidUtf8(m[k])
  }

  predicate MessageUtf8(msg: Message)
  {
    forall i | 0 <= i < |msg| :: ValueUtf8(msg[i])
  }

  /** No string holds a NUL, and no map key or value is empty. */
  predicate ValueNulFree(v: Value)
  {
    match v
    case Text(s) => 0 !in s
    case Num(_) => true
    case Dict(m) => forall k | k in m :: k != [] && 0 !in k && m[k] != [] && 0 !in m[k]
  }

  predicate MessageNulFree(msg: Message)
  {
    forall i | 0 <= i < |msg| :: ValueNulFree(msg[i])
  }

  /** Every field that is not a default has its records in the list. */
  lemma {:induction false} RecordsCover(msg: Message, order: seq<Bytes>, from: nat, i: nat, key: Bytes)
    requires OrdersMaps(msg, order) && from <= i < |msg|
    ensures msg[i].Text? && msg[i].s != [] ==> RText(i, msg[i].s) in RecordsFrom(msg, order, from)
    ensures msg[i].Dict? && key in msg[i].m ==> REntry(i, key, msg[i].m[key]) in RecordsFrom(msg, order, from)
    decreases i - from
  {
    if from < i {
      RecordsCover(msg, order, from + 1, i, key);
    } else {
      var rs := FieldRecords(i, msg[i], order);
      assert RecordsFrom(msg, order, i) == rs + RecordsFrom(msg, order, i + 1);
      if msg[i].Dict? && key in msg[i].m {
        var j :| 0 <= j < |order| && order[j] == key;
        assert rs[j] == REntry(i, key, msg[i].m[key]);
      } else if msg[i].Text? && msg[i].s != [] {
        assert rs[0] == RText(i, msg[i].s);
      }
    }
  }

  lemma CleanMeansUtf8(schema: Schema, msg: Message, order: seq<Bytes>)
    requires WellTyped(schema, msg) && OrdersMaps(msg, order)
    ensures AllClean(Records(msg, order)) <==> MessageUtf8(msg)
  {
    var rs := Records(msg, order);
    if MessageUtf8(msg) {
      forall j | 0 <= j < |rs| ensures CleanUtf8(rs[j]) {
        RecordsTyped(schema, msg, order, 0, rs[j]);
        assert ValueUtf8(msg[rs[j].i]);
      }
    }
    if AllClean(rs) {
      forall i | 0 <= i < |msg| ensures ValueUtf8(msg[i]) {
        RecordsCover(msg, order, 0, i, []);
        if msg[i].Dict? {
          forall k | k in msg[i].m ensures ValidUtf8(k) && ValidUtf8(msg[i].m[k]) {
            RecordsCover(msg, order, 0, i, k);
          }
        }
      }
    }
  }

  lemma {:induction false} WholeAll(schema: Schema, rs: seq<Record>)
    requires ValidSchema(schema) && AllFit(schema, rs)
    ensures Whole(schema, rs, |EncodeAll(schema, rs)|) == |rs|
  {
    if rs != [] {
      WholeAll(schema, rs[1..]);
    }
  }

  /** Parsing a serialization on top of any message merges, and fails exactly when some string is
      not UTF-8. */
  lemma ParseMerges(schema: Schema, acc: Message, msg: Message, order: seq<Bytes>)
    requires Serializable(schema, msg, order) && WellTyped(schema, acc)
    ensures ParseInto(schema, acc, Serialize(schema, msg, order)) ==
            if MessageUtf8(msg) then Parsed(Merge(schema, acc, msg)) else Malformed
  {
    hide ParseInto;
    SerializableFits(schema, msg, order);
    var rs := Records(msg, order);
    var s := EncodeAll(schema, rs);
    PrefixParse(schema, acc, rs, |s|);
    WholeAll(schema, rs);
    assert s[..|s|] == s && rs[..|rs|] == rs;
    CleanMeansUtf8(schema, msg, order);
    RecordsMerge(schema, acc, msg, order);
  }

  /** Parsing a serialization gives the message back, in any map iteration order. */
  lemma RoundTrip(schema: Schema, msg: Message, order: seq<Bytes>)
    requires Serializable(schema, msg, order)
    ensures ParseMessage(schema, Serialize(schema, msg, order)) ==
            if MessageUtf8(msg) then Parsed(msg) else Malformed
  {
    ParseMerges(schema, Default(schema), msg, order);
    MergeDefault(schema, msg);
  }

  /** "Last One Wins": parsing two serializations one after the other merges the second message
      into the first. */
  lemma ConcatenationMerges(schema: Schema, a: Message, orderA: seq<Bytes>, b: Message, orderB: seq<Bytes>)
    requires Serializable(schema, a, orderA) && Serializable(schema, b, orderB)
    ensures ParseMessage(schema, Serialize(schema, a, orderA) + Serialize(schema, b, orderB)) ==
            if MessageUtf8(a) && MessageUtf8(b) then Parsed(Merge(schema, a, b)) else Malformed
  {
    hide ParseInto;
    SerializableFits(schema, a, orderA);
    CleanMeansUtf8(schema, a, orderA);
    if !MessageUtf8(a) {
      RecordsFail(schema, Default(schema), Records(a, orderA), Serialize(schema, b, orderB));
      return;
    }
    RecordsStep(schema, Default(schema), Records(a, orderA), Serialize(schema, b, orderB));
    RecordsMerge(schema, Default(schema), a, orderA);
    MergeDefault(schema, a);
    ParseMerges(schema, a, b, orderB);
  }

  lemma {:induction false} EncodeAllSize(schema: Schema, rs: seq<Record>)
    requires ValidSchema(schema) && AllFit(schema, rs)
    ensures |EncodeAll(schema, rs)| == RecordsSize(rs)
  {
    if rs != [] {
      EncodeAllSize(schema, rs[1..]);
    }
  }

  /** ByteSizeLong is the length of what is written. */
  lemma SizeExact(schema: Schema, msg: Message, order: seq<Bytes>)
    requires Serializable(schema, msg, order)
    ensures |Serialize(schema, msg, order)| == RecordsSize(Records(msg, order))
  {
    SerializableFits(schema, msg, order);
    EncodeAllSize(schema, Records(msg, order));
  }

  // ---- zero bytes -----------------------------------------------------------------------------

  predicate RecordNulFree(r: Record)
  {
    match r
    case RText(_, s) => s != [] && 0 !in s
    case RNum(_, n) => n != 0
    case REntry(_, key, value) => key != [] && 0 !in key && value != [] && 0 !in value
  }

  lemma RecordNoZero(schema: Schema, r: Record)
    requires ValidSchema(schema) && Fits(schema, r) && !(r.RText? && r.s == []) && !(r.RNum? && r.n == 0)
    ensures 0 !in Encode(schema, r) <==> RecordNulFree(r)
  {
    var tag, body := Tag(r.i, schema[r.i]), Body(schema, r);
    assert 0 !in [tag] + body <==> 0 !in body;
    match r
    case RText(_, s) => DelimitedNoZero(s);
    case RNum(_, n) => VarintNoZero(ToWire(n));
    case REntry(_, key, value) =>
      DelimitedNoZero(EntryBytes(key, value));
      DelimitedNoZero(key);
      DelimitedNoZero(value);
  }

  lemma {:induction false} RecordsNoZero(schema: Schema, rs: seq<Record>)
    requires ValidSchema(schema) && AllFit(schema, rs)
    requires forall j | 0 <= j < |rs| :: !(rs[j].RText? && rs[j].s == []) && !(rs[j].RNum? && rs[j].n == 0)
    ensures 0 !in EncodeAll(schema, rs) <==> forall j | 0 <= j < |rs| :: RecordNulFree(rs[j])
  {
    hide Encode, RecordNulFree;
    if rs != [] {
      RecordNoZero(schema, rs[0]);
      RecordsNoZero(schema, rs[1..]);
      assert (forall j | 0 <= j < |rs| :: RecordNulFree(rs[j])) <==>
             RecordNulFree(rs[0]) && forall j | 0 <= j < |rs| - 1 :: RecordNulFree(rs[1..][j]) by {
        assert forall j | 0 <= j < |rs| - 1 :: rs[1..][j] == rs[j + 1];
        assert forall j | 1 <= j < |rs| :: rs[j] == rs[1..][j - 1];
      }
    }
  }

  /** A serialization has no zero byte exactly when no string holds a NUL and every map key and value
      is non-empty. */
  lemma NoZeroByte(schema: Schema, msg: Message, order: seq<Bytes>)
    requires Serializable(schema, msg, order)
    ensures 0 !in Serialize(schema, msg, order) <==> MessageNulFree(msg)
  {
    SerializableFits(schema, msg, order);
    var rs := Records(msg, order);
    forall j | 0 <= j < |rs|
      ensures !(rs[j].RText? && rs[j].s == []) && !(rs[j].RNum? && rs[j].n == 0)
      ensures MessageNulFree(msg) ==> RecordNulFree(rs[j])
    {
      RecordsTyped(schema, msg, order, 0, rs[j]);
      assert MessageNulFree(msg) ==> ValueNulFree(msg[rs[j].i]);
    }
    RecordsNoZero(schema, rs);
    if forall j | 0 <= j < |rs| :: RecordNulFree(rs[j]) {
      forall i | 0 <= i < |msg| ensures ValueNulFree(msg[i]) {
        RecordsCover(msg, order, 0, i, []);
        if msg[i].Dict? {
          forall k | k in msg[i].m ensures RecordNulFree(REntry(i, k, msg[i].m[k])) {
            RecordsCover(msg, order, 0, i, k);
          }
        }
      }
    }
  }
}
