/** What a thread and a submit call come to when nobody interferes: an idle thread sleeps, a sleeping one
    retires exactly down to the initial size, and a call is accepted, rejected or put to sleep by the room
    there is. */
module PoolOutcomes {
  import opened Sums
  import opened PoolModel
  import opened PoolInvariant
  import opened PoolTheorems

  // ---- continuations --------------------------------------------------------------------------

  lemma Then(k: Config, s: State, steps: seq<Step>, step: Step)
    requires CanRun(k, s, steps) && Enabled(k, After(k, s, steps), step)
    ensures CanRun(k, s, steps + [step]) && After(k, s, steps + [step]) == Apply(k, After(k, s, steps), step)
  {
    hide Enabled, Apply;
    assert (steps + [step])[..|steps|] == steps;
  }

  lemma StandsStill(k: Config, s: State)
    ensures CanRun(k, s, []) && After(k, s, []) == s
  {}

  lemma LastStep(k: Config, s: State, front: seq<Step>, step: Step)
    requires CanRun(k, s, front + [step])
    ensures CanRun(k, s, front) && Enabled(k, After(k, s, front), step)
    ensures After(k, s, front + [step]) == Apply(k, After(k, s, front), step)
  {
    hide Enabled, Apply;
    assert (front + [step])[..|front|] == front;
  }

  lemma {:induction false} Chain(k: Config, s: State, a: seq<Step>, b: seq<Step>)
    requires CanRun(k, s, a) && CanRun(k, After(k, s, a), b)
    ensures CanRun(k, s, a + b) && After(k, s, a + b) == After(k, After(k, s, a), b)
    decreases |b|
  {
    hide Enabled, Apply, CanRun, After;
    if b == [] {
      assert a + b == a;
      StandsStill(k, After(k, s, a));
    } else {
      var front, last := b[..|b| - 1], b[|b| - 1];
      assert b == front + [last];
      LastStep(k, After(k, s, a), front, last);
      Chain(k, s, a, front);
      Then(k, s, a + front, last);
      assert a + b == a + front + [last];
    }
  }

  // ---- threads --------------------------------------------------------------------------------

  /** Running, nothing queued, and nobody in the mutex. */
  predicate Quiet(s: State)
  {
    s.running && s.queue == [] && s.lock.Free?
  }

  /** A thread that finds nothing to do goes to sleep. */
  lemma IdleSleeps(k: Config, s: State, w: nat)
    requires Quiet(s) && w < |s.workers| && s.workers[w] == Wanting(false)
    ensures var steps := [Thread(w, Acquire), Thread(w, Test), Thread(w, Sleep)];
      CanRun(k, s, steps) && After(k, s, steps) == s.(workers := s.workers[w := Asleep])
  {
    hide CanRun, After;
    StandsStill(k, s);
    Then(k, s, [], Thread(w, Acquire));
    assert [] + [Thread(w, Acquire)] == [Thread(w, Acquire)];
    Then(k, s, [Thread(w, Acquire)], Thread(w, Test));
    assert [Thread(w, Acquire)] + [Thread(w, Test)] == [Thread(w, Acquire), Thread(w, Test)];
    Then(k, s, [Thread(w, Acquire), Thread(w, Test)], Thread(w, Sleep));
    assert [Thread(w, Acquire), Thread(w, Test)] + [Thread(w, Sleep)] ==
           [Thread(w, Acquire), Thread(w, Test), Thread(w, Sleep)];
    assert After(k, s, [Thread(w, Acquire), Thread(w, Test), Thread(w, Sleep)]).workers == s.workers[w := Asleep];
  }

  function TimeoutSteps(w: nat): seq<Step>
  {
    [Thread(w, Timeout), Thread(w, Acquire), Thread(w, Test), Thread(w, ReadRunning)]
  }

  function RetireSteps(w: nat): seq<Step>
  {
    TimeoutSteps(w) + [Thread(w, Reap)]
  }

  lemma TimesOut(k: Config, s: State, w: nat)
    requires k.mode.Cache? && Quiet(s) && w < |s.workers| && s.workers[w].Asleep?
    ensures CanRun(k, s, TimeoutSteps(w))
    ensures After(k, s, TimeoutSteps(w)) == s.(workers := s.workers[w := Reaping], lock := ByWorker(w))
  {
    hide CanRun, After;
    StandsStill(k, s);
    var a, b, c, d := Thread(w, Timeout), Thread(w, Acquire), Thread(w, Test), Thread(w, ReadRunning);
    Then(k, s, [], a);
    assert [] + [a] == [a];
    Then(k, s, [a], b);
    assert [a] + [b] == [a, b];
    Then(k, s, [a, b], c);
    assert [a, b] + [c] == [a, b, c];
    Then(k, s, [a, b, c], d);
    assert [a, b, c] + [d] == [a, b, c, d];
    assert After(k, s, [a, b, c, d]).workers == s.workers[w := Reaping];
  }

  /** Retirement: a sleeping thread whose wait times out leaves the pool, and is taken off both counters,
      exactly when there are more threads than the initial number; otherwise it stays. */
  lemma Retires(k: Config, s: State, w: nat)
    requires k.mode.Cache? && Quiet(s) && w < |s.workers| && s.workers[w].Asleep?
    ensures CanRun(k, s, RetireSteps(w))
    ensures var t := After(k, s, RetireSteps(w));
      && |t.workers| == |s.workers| && (forall v | 0 <= v < |s.workers| && v != w :: t.workers[v] == s.workers[v])
      && (Finished(t.workers[w]) <==> s.cur > k.initThreads)
      && t.cur == (if s.cur > k.initThreads then s.cur - 1 else s.cur)
      && t.idle == (if s.cur > k.initThreads then s.idle - 1 else s.idle)
      && (s.cur > k.initThreads ==> t == s.(workers := t.workers, cur := t.cur, idle := t.idle))
  {
    hide CanRun, After;
    TimesOut(k, s, w);
    Then(k, s, TimeoutSteps(w), Thread(w, Reap));
  }

  /** Every thread sleeps or has left, and start() is over. */
  ghost predicate AllAtRest(k: Config, s: State)
  {
    && Quiet(s) && s.starter == Launching(k.initThreads)
    && forall w | 0 <= w < |s.workers| :: s.workers[w].Asleep? || Finished(s.workers[w])
  }

  lemma SomeSleeper(k: Config, s: State) returns (w: nat)
    requires Inv(k, s) && AllAtRest(k, s) && s.cur > k.initThreads
    ensures w < |s.workers| && s.workers[w].Asleep?
  {
    hide Sum;
    NoneEnrolling(s.workers);
    w := InPoolWitness(s.workers);
    assert s.workers[w].Exited? ==> SomeExited(s.workers);
  }

  lemma NoneEnrolling(workers: seq<WorkerPc>)
    requires forall w | 0 <= w < |workers| :: workers[w].Asleep? || Finished(workers[w])
    ensures Sum(workers, IsEnrolling) == 0
  {
    SumZero(workers, |workers|, IsEnrolling);
  }

  lemma InPoolWitness(workers: seq<WorkerPc>) returns (w: nat)
    requires Sum(workers, InPool) > 0
    ensures w < |workers| && !workers[w].Retired?
  {
    w := SumWitness(workers, |workers|, InPool);
  }

  lemma AtLeastInitial(k: Config, s: State)
    requires Inv(k, s) && AllAtRest(k, s)
    ensures s.cur >= k.initThreads
  {
    hide Sum;
    NoneEnrolling(s.workers);
  }

  /** A resting pool that has grown can shrink back to exactly its initial number of threads. */
  lemma {:induction false} ShrinksBack(k: Config, s: State) returns (more: seq<Step>)
    requires k.mode.Cache? && Reachable(k, s) && AllAtRest(k, s)
    ensures CanRun(k, s, more) && After(k, s, more).cur == k.initThreads
    decreases s.cur
  {
    hide CanRun, After, Inv;
    ReachableInv(k, s);
    AtLeastInitial(k, s);
    if s.cur == k.initThreads {
      more := [];
      StandsStill(k, s);
    } else {
      var w := SomeSleeper(k, s);
      Retires(k, s, w);
      var t := After(k, s, RetireSteps(w));
      ReachesOn(k, s, RetireSteps(w));
      var rest := ShrinksBack(k, t);
      more := RetireSteps(w) + rest;
      Chain(k, s, RetireSteps(w), rest);
    }
  }

  lemma ReachesOn(k: Config, s: State, more: seq<Step>)
    requires Reachable(k, s) && CanRun(k, s, more)
    ensures Reachable(k, After(k, s, more))
  {
    hide CanRun, After;
    var steps :| CanRun(k, INITIAL, steps) && After(k, INITIAL, steps) == s;
    Chain(k, INITIAL, steps, more);
  }

  // ---- submit calls ---------------------------------------------------------------------------

  /** A call that wants the mutex while it is free. */
  predicate Waiting(s: State, c: nat)
  {
    s.lock.Free? && c < |s.calls| && s.calls[c].pc.CWanting?
  }

  function Enter(c: nat): seq<Step>
  {
    [Submit(c, CallAcquire), Submit(c, CallTest)]
  }

  /** Looking at the queue: past the wait when there is room or the pool was stopped, rejected when the
      deadline has passed, and otherwise about to sleep. */
  lemma Looks(k: Config, s: State, c: nat)
    requires QueueInv(k, s) && Waiting(s, c)
    ensures CanRun(k, s, Enter(c))
    ensures var t := After(k, s, Enter(c)); var late := s.calls[c].pc.late;
      && t == s.(calls := t.calls, lock := t.lock) && t.calls == s.calls[c := s.calls[c].(pc := t.calls[c].pc)]
      && t.calls[c].pc == (if |s.queue| < k.maxQueue || !s.running then CPassed
                           else if late then CRejected(TimedOut) else CDozing)
      && t.lock == (if t.calls[c].pc.CRejected? then Free else ByCall(c))
  {
    hide CanRun, After, QueueOk;
    StandsStill(k, s);
    var a, b := Submit(c, CallAcquire), Submit(c, CallTest);
    Then(k, s, [], a);
    assert [] + [a] == [a];
    Then(k, s, [a], b);
    assert [a] + [b] == [a, b];
  }

  /** With room in a running pool the call is accepted and its task is the last in the queue. */
  lemma Accepted(k: Config, s: State, c: nat) returns (more: seq<Step>)
    requires QueueInv(k, s) && Waiting(s, c) && s.running && |s.queue| < k.maxQueue
    ensures CanRun(k, s, more)
    ensures var t := After(k, s, more);
      && |t.calls| == |s.calls| && t.calls[c].pc.CSignalling?
      && (forall d | 0 <= d < |s.calls| && d != c :: t.calls[d] == s.calls[d])
      && t.queue == s.queue + [c] && t.accepted == s.accepted + [c] && t.taskSize == s.taskSize + 1 && t.lock.Free?
  {
    hide CanRun, After, QueueInv;
    Looks(k, s, c);
    var admit, push := Submit(c, Admit), Submit(c, Push);
    Then(k, s, Enter(c), admit);
    Then(k, s, Enter(c) + [admit], push);
    more := Enter(c) + [admit] + [push];
  }

  /** With the queue full it sleeps, or is turned away if its deadline has passed; nothing is queued. */
  lemma NotAccepted(k: Config, s: State, c: nat) returns (more: seq<Step>)
    requires QueueInv(k, s) && Waiting(s, c) && s.running && |s.queue| == k.maxQueue
    ensures CanRun(k, s, more)
    ensures var t := After(k, s, more);
      && c < |t.calls| && t.calls[c].pc == (if s.calls[c].pc.late then CRejected(TimedOut) else CAsleep)
      && t.queue == s.queue && t.accepted == s.accepted && t.lock.Free?
  {
    hide CanRun, After, QueueInv;
    Looks(k, s, c);
    more := Enter(c);
    if !s.calls[c].pc.late {
      Then(k, s, Enter(c), Submit(c, CallSleep));
      more := Enter(c) + [Submit(c, CallSleep)];
    }
  }

  /** Once the pool is stopped it is turned away, room or not. */
  lemma TurnedAway(k: Config, s: State, c: nat) returns (more: seq<Step>)
    requires QueueInv(k, s) && Waiting(s, c) && !s.running
    ensures CanRun(k, s, more)
    ensures var t := After(k, s, more);
      && c < |t.calls| && t.calls[c].pc == CRejected(Stopped)
      && t.queue == s.queue && t.accepted == s.accepted && t.lock.Free?
  {
    hide CanRun, After, QueueInv;
    Looks(k, s, c);
    Then(k, s, Enter(c), Submit(c, Admit));
    more := Enter(c) + [Submit(c, Admit)];
  }

  // ---- why calls are rejected -----------------------------------------------------------------

  /** Only a submit_for call can time out, and "stopped" is said only after stop() was called. */
  predicate FairlyRejected(s: State, call: Call)
  {
    && ((call.pc.CWanting? && call.pc.late) || (call.pc.CChecking? && call.pc.late) ==> call.timed)
    && (call.pc == CRejected(TimedOut) ==> call.timed && call.slept)
    && (call.pc == CRejected(Stopped) ==> !s.stopper.NotCalled?)
    && ((call.pc.CWanting? && call.pc.late) || (call.pc.CChecking? && call.pc.late) ==> call.slept)
  }

  ghost predicate AllFair(s: State)
  {
    SleepersSlept(s.calls) && forall c | 0 <= c < |s.calls| :: FairlyRejected(s, s.calls[c])
  }

  lemma FairCall(k: Config, s: State, c: nat, op: CallAct)
    requires PhaseInv(k, s) && AllFair(s) && CallEnabled(s, c, op) && !s.starter.NotStarted?
    ensures AllFair(CallEffect(k, s, c, op))
  {
    var s' := CallEffect(k, s, c, op);
    assert FairlyRejected(s, s.calls[c]);
    forall d | 0 <= d < |s'.calls| ensures FairlyRejected(s', s'.calls[d]) {
      assert d != c ==> FairlyRejected(s, s.calls[d]);
    }
  }

  lemma FairStep(k: Config, s: State, step: Step)
    requires PhaseInv(k, s) && AllFair(s) && Enabled(k, s, step)
    ensures AllFair(Apply(k, s, step))
  {
    hide PhaseInv;
    if step.Submit? {
      BegunCall(k, s, step.c, step.op);
      FairCall(k, s, step.c, step.op);
    }
  }

  lemma BegunCall(k: Config, s: State, c: nat, op: CallAct)
    requires PhaseInv(k, s) && CallEnabled(s, c, op)
    ensures !s.starter.NotStarted?
  {}

  lemma {:induction false} FairAlong(k: Config, steps: seq<Step>)
    requires CanRun(k, INITIAL, steps)
    ensures AllFair(After(k, INITIAL, steps))
  {
    hide Enabled, Apply;
    if steps != [] {
      var n := |steps| - 1;
      FairAlong(k, steps[..n]);
      InitialInv(k);
      KeptAlong(k, INITIAL, steps[..n]);
      FairStep(k, After(k, INITIAL, steps[..n]), steps[n]);
    }
  }

  /** In every reachable state a call rejected for time is a submit_for call that has waited, and a call
      rejected as stopped was rejected after stop() was called. */
  lemma RejectionsFair(k: Config, s: State, c: nat)
    requires Reachable(k, s) && c < |s.calls|
    ensures s.calls[c].pc == CRejected(TimedOut) ==> s.calls[c].timed && s.calls[c].slept
    ensures s.calls[c].pc == CRejected(Stopped) ==> !s.stopper.NotCalled?
  {
    hide CanRun, After;
    var steps :| CanRun(k, INITIAL, steps) && After(k, INITIAL, steps) == s;
    FairAlong(k, steps);
    assert FairlyRejected(s, s.calls[c]);
  }
}
