/** The texts a worker writes into failed results are plain UTF-8, so an ordinary failure travels back. */
module FailureTexts {
  import opened Wire
  import opened Utf8
  import opened Messages
  import opened Transport
  import opened Pipeline

  lemma NothingClean()
    ensures CleanText([])
  {}

  lemma {:induction false} CleanConcat(a: Bytes, b: Bytes)
    requires CleanText(a) && CleanText(b)
    ensures CleanText(a + b)
  {
    hide CleanText, ValidUtf8, Encoding;
    var cs := DecodeClean(a);
    JoinText(cs, b);
  }

  lemma DecodeClean(a: Bytes) returns (cs: seq<int>)
    requires CleanText(a)
    ensures Scalars(cs) && Text(cs) == a && 0 !in a
  {
    cs := Decode(a);
  }

  lemma {:induction false} JoinText(cs: seq<int>, b: Bytes)
    requires Scalars(cs) && 0 !in Text(cs) && CleanText(b)
    ensures CleanText(Text(cs) + b)
  {
    hide Encoding, ValidUtf8;
    if cs == [] {
      assert Text(cs) + b == b;
    } else {
      var tail := Text(cs[1..]);
      JoinText(cs[1..], b);
      assert Text(cs) + b == Encoding(cs[0]) + (tail + b);
      EncodingFirst(cs[0], tail + b);
    }
  }

  lemma OneClean(c: int, s: Bytes)
    requires Scalar(c) && c > 0 && s == Encoding(c)
    ensures CleanText(s)
  {
    hide ValidUtf8;
    assert s + [] == s;
    EncodingFirst(c, []);
    NothingClean();
  }

  /** Six characters: the command failed. */
  lemma CommandFailedClean()
    ensures CleanText(COMMAND_FAILED)
  {
    hide CleanText;
    var c0: Bytes := [229, 145, 189];
    OneClean(0x547D, c0);
    var c1: Bytes := [228, 187, 164];
    OneClean(0x4EE4, c1);
    var c2: Bytes := [230, 137, 167];
    OneClean(0x6267, c2);
    var c3: Bytes := [232, 161, 140];
    OneClean(0x884C, c3);
    var c4: Bytes := [229, 164, 177];
    OneClean(0x5931, c4);
    var c5: Bytes := [232, 180, 165];
    OneClean(0x8D25, c5);
    CleanConcat(c0, c1);
    CleanConcat(c0 + c1, c2);
    CleanConcat(c0 + c1 + c2, c3);
    CleanConcat(c0 + c1 + c2 + c3, c4);
    CleanConcat(c0 + c1 + c2 + c3 + c4, c5);
  }

  /** Eight characters: unsupported task type. */
  lemma UnsupportedClean()
    ensures CleanText(UNSUPPORTED)
  {
    hide CleanText;
    var c0: Bytes := [228, 184, 141];
    OneClean(0x4E0D, c0);
    var c1: Bytes := [230, 148, 175];
    OneClean(0x652F, c1);
    var c2: Bytes := [230, 140, 129];
    OneClean(0x6301, c2);
    var c3: Bytes := [231, 154, 132];
    OneClean(0x7684, c3);
    var c4: Bytes := [228, 187, 187];
    OneClean(0x4EFB, c4);
    var c5: Bytes := [229, 138, 161];
    OneClean(0x52A1, c5);
    var c6: Bytes := [231, 177, 187];
    OneClean(0x7C7B, c6);
    var c7: Bytes := [229, 158, 139];
    OneClean(0x578B, c7);
    CleanConcat(c0, c1);
    CleanConcat(c0 + c1, c2);
    CleanConcat(c0 + c1 + c2, c3);
    CleanConcat(c0 + c1 + c2 + c3, c4);
    CleanConcat(c0 + c1 + c2 + c3 + c4, c5);
    CleanConcat(c0 + c1 + c2 + c3 + c4 + c5, c6);
    CleanConcat(c0 + c1 + c2 + c3 + c4 + c5 + c6, c7);
  }

  /** Four characters, a colon and a space: exception during execution. */
  lemma ExceptionClean()
    ensures CleanText(EXCEPTION)
  {
    hide CleanText;
    var c0: Bytes := [230, 137, 167];
    OneClean(0x6267, c0);
    var c1: Bytes := [232, 161, 140];
    OneClean(0x884C, c1);
    var c2: Bytes := [229, 188, 130];
    OneClean(0x5F02, c2);
    var c3: Bytes := [229, 184, 184];
    OneClean(0x5E38, c3);
    var c4: Bytes := [58];
    OneClean(0x3A, c4);
    var c5: Bytes := [32];
    OneClean(0x20, c5);
    CleanConcat(c0, c1);
    CleanConcat(c0 + c1, c2);
    CleanConcat(c0 + c1 + c2, c3);
    CleanConcat(c0 + c1 + c2 + c3, c4);
    CleanConcat(c0 + c1 + c2 + c3 + c4, c5);
  }

  /** Every result travels whose id, worker and given text are clean: whatever the outcome, none of the
      fixed texts stops it. */
  lemma OutcomeTravels(t: Task, outcome: Outcome, now: int, workerId: Bytes)
    requires CleanText(t.taskId) && CleanText(workerId)
    requires CleanText(if outcome.Gave? then outcome.text else outcome.what)
    ensures ResultTravels(RunTask(t, outcome, now, workerId))
  {
    hide CleanText;
    NothingClean();
    CommandFailedClean();
    UnsupportedClean();
    ExceptionClean();
    if outcome.Threw? {
      CleanConcat(EXCEPTION, outcome.what);
    }
  }

  /** In particular a command that printed nothing. */
  lemma SilentCommandTravels(t: Task, success: bool, now: int, workerId: Bytes)
    requires t.taskType == COMMAND && CleanText(t.taskId) && CleanText(workerId)
    ensures var r := RunTask(t, Gave(success, []), now, workerId);
      ResultTravels(r) && r.status == FAILED && r.errorMessage == COMMAND_FAILED
  {
    NothingClean();
    OutcomeTravels(t, Gave(success, []), now, workerId);
  }
}
