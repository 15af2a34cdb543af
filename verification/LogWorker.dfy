/** The asynchronous log worker: producers fill one buffer, a consumer swaps it out, flushes it and
    resets it. A push is one step; setting the stop flag and the unlocked exit test never fall
    inside a push. */
module LogWorker {
  import opened LogBuffer

  datatype Mode = Bounded | Growing

  /** One of the two buffers: its bytes, and the messages they came from. */
  datatype Half = Half(messages: seq<string>, bytes: string, extent: Extent)

  datatype Pc =
    | Top        // about to wait for data or stop, then swap
    | Filled     // swapped, about to call the callback
    | Flushed    // callback done, about to reset
    | ReadStop   // about to read the stop flag
    | ReadEmpty  // has read stop == true, about to read the producer buffer
    | Done

  datatype State = State(
    stop: bool, producer: Half, consumer: Half, pc: Pc,
    accepted: seq<string>,        // messages pushed, in lock order
    batches: seq<seq<string>>,    // messages of each callback
    flushed: string)              // bytes handed to callbacks

  datatype Step = Push(message: string) | RequestStop | Take | Deliver | Rewind | TestStop | TestEmpty

  function Concat(messages: seq<string>): string
  {
    if messages == [] then "" else Concat(messages[..|messages| - 1]) + messages[|messages| - 1]
  }

  function Join(batches: seq<seq<string>>): seq<string>
  {
    if batches == [] then [] else Join(batches[..|batches| - 1]) + batches[|batches| - 1]
  }

  function Blank(cfg: Config): Half
  {
    Half([], "", Initial(cfg))
  }

  function Start(cfg: Config): State
  {
    State(false, Blank(cfg), Blank(cfg), Top, [], [], "")
  }

  function Append(cfg: Config, h: Half, message: string): Half
    requires Grows(cfg)
  {
    Half(h.messages + [message], h.bytes + message, Written(cfg, h.extent, |message|))
  }

  predicate HasRoom(h: Half, length: nat)
  {
    h.extent.write + length <= h.extent.cap
  }

  /** In bounded mode a push waits until the message fits; once stop is set it is turned away. */
  predicate Enabled(mode: Mode, s: State, step: Step)
  {
    match step
    case Push(message) => s.stop || mode.Growing? || HasRoom(s.producer, |message|)
    case RequestStop => true
    case Take => s.pc.Top? && (s.stop || s.producer.bytes != "")
    case Deliver => s.pc.Filled?
    case Rewind => s.pc.Flushed?
    case TestStop => s.pc.ReadStop?
    case TestEmpty => s.pc.ReadEmpty?
  }

  function Apply(cfg: Config, mode: Mode, s: State, step: Step): State
    requires Grows(cfg) && Enabled(mode, s, step)
  {
    match step
    case Push(message) =>
      if s.stop then s
      else s.(producer := Append(cfg, s.producer, message), accepted := s.accepted + [message])
    case RequestStop => s.(stop := true)
    case Take => s.(producer := s.consumer, consumer := s.producer, pc := Filled)
    case Deliver =>
      s.(batches := s.batches + [s.consumer.messages], flushed := s.flushed + s.consumer.bytes, pc := Flushed)
    case Rewind => s.(consumer := Half([], "", Rewound(s.consumer.extent)), pc := ReadStop)
    case TestStop => s.(pc := if s.stop then ReadEmpty else Top)
    case TestEmpty => s.(pc := if s.producer.bytes == "" then Done else Top)
  }

  predicate CanRun(cfg: Config, mode: Mode, s: State, steps: seq<Step>)
    requires Grows(cfg)
    decreases |steps|, 0
  {
    steps == [] ||
    var n := |steps| - 1;
    CanRun(cfg, mode, s, steps[..n]) && Enabled(mode, RunTo(cfg, mode, s, steps[..n]), steps[n])
  }

  function RunTo(cfg: Config, mode: Mode, s: State, steps: seq<Step>): State
    requires Grows(cfg) && CanRun(cfg, mode, s, steps)
    decreases |steps|, 1
  {
    if steps == [] then s
    else var n := |steps| - 1; Apply(cfg, mode, RunTo(cfg, mode, s, steps[..n]), steps[n])
  }

  // ---- invariant --------------------------------------------------------------------------------

  ghost predicate HalfOk(h: Half)
  {
    h.bytes == Concat(h.messages) && h.extent.write == |h.bytes|
  }

  /** The consumer's messages that no callback has seen yet. */
  function Unseen(s: State): seq<string>
  {
    if s.pc.Filled? then s.consumer.messages else []
  }

  function UnseenBytes(s: State): string
  {
    if s.pc.Filled? then s.consumer.bytes else ""
  }

  ghost predicate Inv(cfg: Config, mode: Mode, s: State)
  {
    && HalfOk(s.producer) && HalfOk(s.consumer)
    && s.accepted == Join(s.batches) + Unseen(s) + s.producer.messages
    && s.flushed == Concat(Join(s.batches))
    && (s.pc.Top? || s.pc.ReadStop? || s.pc.ReadEmpty? || s.pc.Done? ==> s.consumer.messages == [])
    && (s.pc.ReadEmpty? || s.pc.Done? ==> s.stop)
    && (s.pc.Done? ==> s.producer.bytes == "")
    && (mode.Bounded? ==>
          && s.producer.extent.cap == cfg.bufferSize && s.producer.extent.relocated == 0
          && s.consumer.extent.cap == cfg.bufferSize && s.consumer.extent.relocated == 0)
  }

  lemma ConcatAppend(messages: seq<string>, m: string)
    ensures Concat(messages + [m]) == Concat(messages) + m
  {
    assert (messages + [m])[..|messages|] == messages;
  }

  lemma {:induction false} ConcatSplit(a: seq<string>, b: seq<string>)
    ensures Concat(a + b) == Concat(a) + Concat(b)
  {
    if b == [] {
      assert a + b == a;
    } else {
      var n := |b| - 1;
      ConcatSplit(a, b[..n]);
      assert a + b == a + b[..n] + [b[n]] && b == b[..n] + [b[n]];
      hide Concat;
      ConcatAppend(a + b[..n], b[n]);
      ConcatAppend(b[..n], b[n]);
    }
  }

  lemma JoinAppend(batches: seq<seq<string>>, batch: seq<string>)
    ensures Join(batches + [batch]) == Join(batches) + batch
  {
    assert (batches + [batch])[..|batches|] == batches;
  }

  lemma StepKeeps(cfg: Config, mode: Mode, s: State, step: Step)
    requires Grows(cfg) && Inv(cfg, mode, s) && Enabled(mode, s, step)
    ensures Inv(cfg, mode, Apply(cfg, mode, s, step))
  {
    hide Concat, Join, GrowTo;
    match step
    case Push(message) =>
      ConcatAppend(s.producer.messages, message);
      if mode.Bounded? && !s.stop {
        RoomMeansNoGrowth(cfg, s.producer.extent, |message|);
      }
    case Deliver =>
      JoinAppend(s.batches, s.consumer.messages);
      ConcatSplit(Join(s.batches), s.consumer.messages);
    case Rewind => NoBytes();
    case Take =>
      NoBytes();
    case _ =>
  }

  lemma NoBytes()
    ensures Concat([]) == ""
  {}

  lemma {:induction false} RunKeeps(cfg: Config, mode: Mode, s: State, steps: seq<Step>)
    requires Grows(cfg) && Inv(cfg, mode, s) && CanRun(cfg, mode, s, steps)
    ensures Inv(cfg, mode, RunTo(cfg, mode, s, steps))
  {
    if steps != [] {
      var n := |steps| - 1;
      RunKeeps(cfg, mode, s, steps[..n]);
      StepKeeps(cfg, mode, RunTo(cfg, mode, s, steps[..n]), steps[n]);
    }
  }

  lemma StartInv(cfg: Config, mode: Mode)
    ensures Inv(cfg, mode, Start(cfg))
  {}

  // ---- what holds over every run ------------------------------------------------------------------

  /** Log stream conservation: flushed bytes, then the consumer's unflushed bytes, then the producer's
      bytes are exactly the accepted messages in lock order, and each callback got whole messages. */
  lemma StreamConserved(cfg: Config, mode: Mode, steps: seq<Step>)
    requires Grows(cfg) && CanRun(cfg, mode, Start(cfg), steps)
    ensures var s := RunTo(cfg, mode, Start(cfg), steps);
      && s.flushed + UnseenBytes(s) + s.producer.bytes == Concat(s.accepted)
      && s.accepted == Join(s.batches) + Unseen(s) + s.producer.messages
      && s.flushed == Concat(Join(s.batches))
  {
    hide Concat, Join;
    StartInv(cfg, mode);
    RunKeeps(cfg, mode, Start(cfg), steps);
    var s := RunTo(cfg, mode, Start(cfg), steps);
    ConcatSplit(Join(s.batches) + Unseen(s), s.producer.messages);
    ConcatSplit(Join(s.batches), Unseen(s));
    NoBytes();
  }

  /** When the consumer has exited, every byte accepted so far, and ever, has been flushed. */
  lemma ExitFlushesAll(cfg: Config, mode: Mode, steps: seq<Step>, more: seq<Step>)
    requires Grows(cfg) && CanRun(cfg, mode, Start(cfg), steps)
    requires RunTo(cfg, mode, Start(cfg), steps).pc.Done?
    requires CanRun(cfg, mode, RunTo(cfg, mode, Start(cfg), steps), more)
    ensures var s := RunTo(cfg, mode, Start(cfg), steps);
      var t := RunTo(cfg, mode, s, more);
      t.accepted == s.accepted && t.flushed == s.flushed == Concat(s.accepted)
  {
    StreamConserved(cfg, mode, steps);
    StartInv(cfg, mode);
    RunKeeps(cfg, mode, Start(cfg), steps);
    DoneStays(cfg, mode, RunTo(cfg, mode, Start(cfg), steps), more);
  }

  lemma {:induction false} DoneStays(cfg: Config, mode: Mode, s: State, more: seq<Step>)
    requires Grows(cfg) && CanRun(cfg, mode, s, more) && s.pc.Done? && s.stop
    ensures RunTo(cfg, mode, s, more) == s
  {
    if more != [] {
      DoneStays(cfg, mode, s, more[..|more| - 1]);
    }
  }

  /** In bounded mode neither buffer ever reallocates, over any run of pushes, swaps and resets. */
  lemma BoundedNeverReallocates(cfg: Config, steps: seq<Step>)
    requires Grows(cfg) && CanRun(cfg, Bounded, Start(cfg), steps)
    ensures var s := RunTo(cfg, Bounded, Start(cfg), steps);
      && s.producer.extent.cap == s.consumer.extent.cap == cfg.bufferSize
      && s.producer.extent.relocated == s.consumer.extent.relocated == 0
      && |s.producer.bytes| <= cfg.bufferSize
  {
    StartInv(cfg, Bounded);
    RunKeeps(cfg, Bounded, Start(cfg), steps);
    RoomKept(cfg, steps);
  }

  lemma {:induction false} RoomKept(cfg: Config, steps: seq<Step>)
    requires Grows(cfg) && CanRun(cfg, Bounded, Start(cfg), steps)
    ensures var s := RunTo(cfg, Bounded, Start(cfg), steps);
      s.producer.extent.write <= s.producer.extent.cap && s.consumer.extent.write <= s.consumer.extent.cap
  {
    hide GrowTo;
    if steps != [] {
      var n := |steps| - 1;
      RoomKept(cfg, steps[..n]);
      StartInv(cfg, Bounded);
      RunKeeps(cfg, Bounded, Start(cfg), steps[..n]);
      var s := RunTo(cfg, Bounded, Start(cfg), steps[..n]);
      if steps[n].Push? && !s.stop {
        RoomMeansNoGrowth(cfg, s.producer.extent, |steps[n].message|);
      }
    }
  }

  /** The messages pushed before the first request to stop. */
  function PushedInTime(steps: seq<Step>): seq<string>
  {
    if steps == [] then []
    else
      var n := |steps| - 1;
      PushedInTime(steps[..n]) + if steps[n].Push? && RequestStop !in steps[..n] then [steps[n].message] else []
  }

  /** Every push that passes its wait before the stop is accepted, in order, and none after it. */
  lemma {:induction false} AcceptedMeans(cfg: Config, mode: Mode, steps: seq<Step>)
    requires Grows(cfg) && CanRun(cfg, mode, Start(cfg), steps)
    ensures var s := RunTo(cfg, mode, Start(cfg), steps);
      s.accepted == PushedInTime(steps) && (s.stop <==> RequestStop in steps)
  {
    hide Apply, Enabled;
    if steps != [] {
      var n := |steps| - 1;
      AcceptedMeans(cfg, mode, steps[..n]);
      AcceptStep(cfg, mode, RunTo(cfg, mode, Start(cfg), steps[..n]), steps[n]);
      assert steps == steps[..n] + [steps[n]];
    }
  }

  lemma AcceptStep(cfg: Config, mode: Mode, s: State, step: Step)
    requires Grows(cfg) && Enabled(mode, s, step)
    ensures var t := Apply(cfg, mode, s, step);
      && t.accepted == s.accepted + (if step.Push? && !s.stop then [step.message] else [])
      && (t.stop <==> s.stop || step.RequestStop?)
  {
    hide GrowTo;
  }

  /** One turn of the consumer hands over everything that was waiting. */
  lemma TurnFlushes(cfg: Config, mode: Mode, s: State)
    requires Grows(cfg) && Inv(cfg, mode, s) && Enabled(mode, s, Take)
    ensures var taken := Apply(cfg, mode, s, Take);
      && Enabled(mode, taken, Deliver)
      && var t := Apply(cfg, mode, taken, Deliver);
         && t.flushed == Concat(s.accepted) && t.accepted == s.accepted
         && t.batches == s.batches + [s.producer.messages] && t.producer.messages == []
  {
    hide Concat, Join, GrowTo;
    NoBytes();
    ConcatSplit(Join(s.batches), s.producer.messages);
    assert Join(s.batches) + [] + s.producer.messages == Join(s.batches) + s.producer.messages;
  }
}
