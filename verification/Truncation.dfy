/** What a cut serialization parses to: never the message it was cut from. */
module Truncation {
  import opened Wire
  import opened Codec
  import opened CodecTheorems

  /** Two records set the same field, or the same key of the same map. */
  predicate SameSlot(a: Record, b: Record)
  {
    a.i == b.i && (a.REntry? && b.REntry? ==> a.key == b.key)
  }

  /** The record's field, or its map key, is set. */
  predicate Filled(schema: Schema, msg: Message, r: Record)
    requires WellTyped(schema, msg) && Fits(schema, r)
  {
    match r
    case RText(i, _) => msg[i] != Text([])
    case RNum(i, _) => msg[i] != Num(0)
    case REntry(i, key, _) => key in msg[i].m
  }

  ghost predicate Separate(rs: seq<Record>)
  {
    forall a, b | 0 <= a < b < |rs| :: !SameSlot(rs[a], rs[b])
  }

  lemma SeparateConcat(a: seq<Record>, b: seq<Record>)
    requires Separate(a) && Separate(b)
    requires forall x, y | 0 <= x < |a| && 0 <= y < |b| :: !SameSlot(a[x], b[y])
    ensures Separate(a + b)
  {
    hide SameSlot;
    var all := a + b;
    forall x, y | 0 <= x < y < |all| ensures !SameSlot(all[x], all[y]) {
      if y < |a| {
        assert !SameSlot(a[x], a[y]);
      } else if x < |a| {
        assert !SameSlot(a[x], b[y - |a|]);
      } else {
        assert !SameSlot(b[x - |a|], b[y - |a|]);
      }
    }
  }

  lemma FieldSeparate(i: nat, v: Value, order: seq<Bytes>)
    requires v.Dict? ==> IsOrder(order, v.m)
    ensures Separate(FieldRecords(i, v, order))
    ensures forall j | 0 <= j < |FieldRecords(i, v, order)| :: FieldRecords(i, v, order)[j].i == i
  {}

  lemma {:induction false} RecordsSeparate(schema: Schema, msg: Message, order: seq<Bytes>, i: nat)
    requires WellTyped(schema, msg) && OrdersMaps(msg, order) && i <= |msg|
    ensures Separate(RecordsFrom(msg, order, i))
    decreases |msg| - i
  {
    hide FieldRecords, IsOrder, Separate;
    if i == |msg| {
      NoneSeparate();
    } else {
      RecordsSeparate(schema, msg, order, i + 1);
      var head, tail := FieldRecords(i, msg[i], order), RecordsFrom(msg, order, i + 1);
      FieldSeparate(i, msg[i], order);
      forall y | 0 <= y < |tail| ensures tail[y].i > i {
        RecordsTyped(schema, msg, order, i + 1, tail[y]);
      }
      SeparateConcat(head, tail);
    }
  }

  lemma NoneSeparate()
    ensures Separate([])
  {}

  /** Records of other slots leave a slot as it is. */
  lemma {:induction false} UnfilledStays(schema: Schema, msg: Message, rs: seq<Record>, r: Record)
    requires WellTyped(schema, msg) && AllFit(schema, rs) && Fits(schema, r) && !Filled(schema, msg, r)
    requires forall j | 0 <= j < |rs| :: !SameSlot(rs[j], r)
    ensures !Filled(schema, ApplyAll(schema, msg, rs), r)
    decreases |rs|
  {
    if rs != [] {
      assert !SameSlot(rs[0], r);
      OtherSlot(schema, msg, rs[0], r);
      UnfilledStays(schema, Apply(schema, msg, rs[0]), rs[1..], r);
    }
  }

  lemma OtherSlot(schema: Schema, msg: Message, other: Record, r: Record)
    requires WellTyped(schema, msg) && Fits(schema, other) && Fits(schema, r) && !SameSlot(other, r)
    ensures Filled(schema, Apply(schema, msg, other), r) == Filled(schema, msg, r)
  {}

  /** Applying only some of a message's records leaves out what the next one would set. */
  lemma FewerRecords(schema: Schema, msg: Message, order: seq<Bytes>, k: nat)
    requires Serializable(schema, msg, order) && k < |Records(msg, order)|
    requires AllFit(schema, Records(msg, order))
    ensures ApplyAll(schema, Default(schema), Records(msg, order)[..k]) != msg
  {
    hide ApplyAll, RecordsFrom;
    var rs := Records(msg, order);
    var r := rs[k];
    RecordsSeparate(schema, msg, order, 0);
    RecordsTyped(schema, msg, order, 0, r);
    forall j | 0 <= j < k ensures !SameSlot(rs[..k][j], r) {}
    UnfilledStays(schema, Default(schema), rs[..k], r);
    assert Filled(schema, msg, r);
  }

  lemma {:induction false} WholeIsLess(schema: Schema, rs: seq<Record>, n: nat)
    requires ValidSchema(schema) && AllFit(schema, rs) && n < |EncodeAll(schema, rs)|
    ensures Whole(schema, rs, n) < |rs|
    decreases |rs|
  {
    hide Encode;
    if n >= |Encode(schema, rs[0])| {
      WholeIsLess(schema, rs[1..], n - |Encode(schema, rs[0])|);
    }
  }

  /** A prefix of a serialization parses to the message exactly when it is the whole serialization and
      the message's strings are UTF-8. */
  lemma PrefixExact(schema: Schema, msg: Message, order: seq<Bytes>, n: nat)
    requires Serializable(schema, msg, order) && n <= |Serialize(schema, msg, order)|
    ensures ParseMessage(schema, Serialize(schema, msg, order)[..n]) == Parsed(msg) <==>
            n == |Serialize(schema, msg, order)| && MessageUtf8(msg)
  {
    hide ParseInto, MessageUtf8, ApplyAll, EncodeAll;
    var s := Serialize(schema, msg, order);
    if n == |s| {
      assert s[..n] == s;
      RoundTrip(schema, msg, order);
    } else {
      SerializableFits(schema, msg, order);
      var rs := Records(msg, order);
      PrefixParse(schema, Default(schema), rs, n);
      WholeIsLess(schema, rs, n);
      FewerRecords(schema, msg, order, Whole(schema, rs, n));
    }
  }

  // ---- what a cut message still tells -------------------------------------------------------------

  /** The value is the whole one or unset; of a map it is some of the entries. */
  predicate PartValue(part: Value, whole: Value)
  {
    match whole
    case Text(_) => part == whole || part == Text([])
    case Num(_) => part == whole || part == Num(0)
    case Dict(m) => part.Dict? && forall k | k in part.m :: k in m && m[k] == part.m[k]
  }

  ghost predicate PartMessage(part: Message, whole: Message)
  {
    |part| == |whole| && forall i | 0 <= i < |whole| :: PartValue(part[i], whole[i])
  }

  /** The record states something the message says. */
  predicate Told(msg: Message, r: Record)
  {
    && r.i < |msg|
    && match r
       case RText(i, s) => msg[i] == Text(s)
       case RNum(i, n) => msg[i] == Num(n)
       case REntry(i, key, value) => msg[i].Dict? && key in msg[i].m && msg[i].m[key] == value
  }

  lemma {:induction false} PartStays(schema: Schema, msg: Message, acc: Message, rs: seq<Record>)
    requires WellTyped(schema, msg) && WellTyped(schema, acc) && AllFit(schema, rs) && PartMessage(acc, msg)
    requires forall j | 0 <= j < |rs| :: Told(msg, rs[j])
    ensures PartMessage(ApplyAll(schema, acc, rs), msg)
    decreases |rs|
  {
    if rs != [] {
      assert Told(msg, rs[0]);
      PartStep(schema, msg, acc, rs[0]);
      PartStays(schema, msg, Apply(schema, acc, rs[0]), rs[1..]);
    }
  }

  lemma PartStep(schema: Schema, msg: Message, acc: Message, r: Record)
    requires WellTyped(schema, msg) && WellTyped(schema, acc) && Fits(schema, r) && PartMessage(acc, msg) && Told(msg, r)
    ensures PartMessage(Apply(schema, acc, r), msg)
  {
    var next := Apply(schema, acc, r);
    assert PartValue(acc[r.i], msg[r.i]);
    assert PartValue(next[r.i], msg[r.i]);
    assert forall i | 0 <= i < |msg| && i != r.i :: next[i] == acc[i];
  }

  /** Whatever a prefix of a serialization parses to is part of the message. */
  lemma PrefixIsPart(schema: Schema, msg: Message, order: seq<Bytes>, n: nat)
    requires Serializable(schema, msg, order) && n <= |Serialize(schema, msg, order)|
    requires ParseMessage(schema, Serialize(schema, msg, order)[..n]).Parsed?
    ensures PartMessage(ParseMessage(schema, Serialize(schema, msg, order)[..n]).value, msg)
  {
    hide ParseInto, ApplyAll, EncodeAll, PartValue;
    SerializableFits(schema, msg, order);
    var rs := Records(msg, order);
    PrefixParse(schema, Default(schema), rs, n);
    forall j | 0 <= j < |rs| ensures Told(msg, rs[j]) {
      RecordsTyped(schema, msg, order, 0, rs[j]);
    }
    DefaultIsPart(schema, msg);
    PartStays(schema, msg, Default(schema), rs[..Whole(schema, rs, n)]);
  }

  lemma DefaultIsPart(schema: Schema, msg: Message)
    requires WellTyped(schema, msg)
    ensures PartMessage(Default(schema), msg)
  {}
}
