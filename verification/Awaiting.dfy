/** No submission is forgotten: every id ever submitted is queued at the client, awaited, or answered, and
    only one of these. */
module Awaiting {
  import opened Wire
  import opened Messages
  import opened Transport
  import opened Pipeline

  ghost predicate Queued(outbox: seq<Task>, id: Bytes)
  {
    exists i | 0 <= i < |outbox| :: outbox[i].taskId == id
  }

  ghost predicate NoneTwice(outbox: seq<Task>)
  {
    forall i, j | 0 <= i < j < |outbox| :: outbox[i].taskId != outbox[j].taskId
  }

  ghost predicate Accounted(s: State)
  {
    && NoneTwice(s.outbox)
    && (forall id | Queued(s.outbox, id) || id in s.awaiting || id in s.results :: id in s.submitted)
    && (forall id | id in s.submitted :: Queued(s.outbox, id) || id in s.awaiting || id in s.results)
    && (forall id | Queued(s.outbox, id) :: id !in s.awaiting && id !in s.results)
    && (forall id | id in s.awaiting :: id !in s.results)
  }

  /** Taking an id off the list takes off that id alone. */
  lemma {:induction false} WithoutMeans(ids: seq<Bytes>, id: Bytes, x: Bytes)
    ensures multiset(Without(ids, id))[x] == if x == id then 0 else multiset(ids)[x]
  {
    if ids != [] {
      WithoutMeans(ids[1..], id, x);
      assert ids == [ids[0]] + ids[1..];
    }
  }

  lemma WithoutMember(ids: seq<Bytes>, id: Bytes, x: Bytes)
    ensures x in Without(ids, id) <==> x in ids && x != id
  {
    WithoutMeans(ids, id, x);
    assert x in Without(ids, id) <==> x in multiset(Without(ids, id));
    assert x in ids <==> x in multiset(ids);
  }

  lemma SubmitAccounts(s: State, task: Task)
    requires Accounted(s) && Enabled(s, Submit(task))
    ensures Accounted(Apply(s, Submit(task)))
  {
    var outbox := s.outbox + [task];
    forall id ensures Queued(outbox, id) <==> Queued(s.outbox, id) || id == task.taskId {
      if Queued(s.outbox, id) {
        var i :| 0 <= i < |s.outbox| && s.outbox[i].taskId == id;
        assert outbox[i].taskId == id;
      }
      assert outbox[|s.outbox|].taskId == task.taskId;
    }
    forall i | 0 <= i < |s.outbox| ensures s.outbox[i].taskId != task.taskId {
      assert Queued(s.outbox, s.outbox[i].taskId);
    }
  }

  lemma SendAccounts(s: State, order: seq<Bytes>, arrives: bool)
    requires Accounted(s) && Enabled(s, Send(order, arrives))
    ensures Accounted(Apply(s, Send(order, arrives)))
  {
    hide TaskSendable;
    var first, rest := s.outbox[0], s.outbox[1..];
    assert Queued(s.outbox, first.taskId);
    forall id ensures Queued(rest, id) <==> Queued(s.outbox, id) && id != first.taskId {
      if Queued(rest, id) {
        var i :| 0 <= i < |rest| && rest[i].taskId == id;
        assert s.outbox[i + 1].taskId == id;
      }
      if Queued(s.outbox, id) && id != first.taskId {
        var i :| 0 <= i < |s.outbox| && s.outbox[i].taskId == id;
        assert rest[i - 1].taskId == id;
      }
    }
  }

  lemma PollAccounts(s: State, i: nat, answered: bool, deleted: bool)
    requires Accounted(s) && i < |s.awaiting|
    ensures Accounted(PollEffect(s, s.awaiting[i], answered, deleted))
  {
    hide CString, ResultParse, Without, Queued, NoneTwice;
    var id := s.awaiting[i];
    assert id in s.awaiting;
    forall x ensures x in Without(s.awaiting, id) <==> x in s.awaiting && x != id {
      WithoutMember(s.awaiting, id, x);
    }
  }

  lemma StepAccounts(s: State, step: Step)
    requires Accounted(s) && Enabled(s, step)
    ensures Accounted(Apply(s, step))
  {
    hide TaskSendable, TaskBytes, TaskParse, ResultParse, ResultSendable, ResultBytes, CString, RunTask, PollEffect,
      CanRead, SocketRead, Queued, NoneTwice;
    match step
    case Submit(task) => SubmitAccounts(s, task);
    case Send(order, arrives) => SendAccounts(s, order, arrives);
    case Poll(i, answered, deleted) => PollAccounts(s, i, answered, deleted);
    case _ =>
  }

  /** Over every run the submitted ids are those queued, awaited or answered, each in one place: an answered
      id is no longer awaited, and an unanswered one is not given up. */
  lemma {:induction false} NothingForgotten(clock: int, steps: seq<Step>)
    requires CanRun(clock, steps)
    ensures Accounted(After(clock, steps))
  {
    hide Enabled, Apply;
    if steps != [] {
      var n := |steps| - 1;
      NothingForgotten(clock, steps[..n]);
      StepAccounts(After(clock, steps[..n]), steps[n]);
    }
  }
}
