/** The worker object over two real buffers: each critical section of the source as one method, proved
    to be the corresponding step of module LogWorker. */
module AsyncWorker {
  import opened LogBuffer
  import opened LogWorker

  class AsyncWorker {
    const cfg: Config
    const mode: Mode
    const producer: Buffer
    const consumer: Buffer
    var stop: bool
    var pc: Pc
    var output: string              // everything the callback was given
    ghost var waiting: seq<string>  // messages in the producer buffer
    ghost var taken: seq<string>    // messages in the consumer buffer
    ghost var accepted: seq<string>
    ghost var batches: seq<seq<string>>

    ghost predicate Separate()
      reads this, producer, consumer
    {
      && producer != consumer && producer.storage != consumer.storage
      && producer.Valid() && consumer.Valid() && producer.readPos == 0 && consumer.readPos == 0
      && Grows(cfg)
    }

    ghost function View(): State
      reads this, producer, consumer, producer.storage, consumer.storage
      requires Separate()
    {
      State(stop, Half(waiting, producer.Contents(), producer.Shape()),
            Half(taken, consumer.Contents(), consumer.Shape()), pc, accepted, batches, output)
    }

    ghost predicate Valid()
      reads this, producer, consumer, producer.storage, consumer.storage
    {
      Separate() && Inv(cfg, mode, View())
    }

    constructor (cfg: Config, mode: Mode)
      requires Grows(cfg)
      ensures Valid() && View() == Start(cfg) && this.cfg == cfg && this.mode == mode
      ensures fresh(producer) && fresh(consumer) && fresh(producer.storage) && fresh(consumer.storage)
    {
      this.cfg, this.mode := cfg, mode;
      var p := new Buffer(cfg);
      var c := new Buffer(cfg);
      producer, consumer := p, c;
      stop, pc, output := false, Top, "";
      waiting, taken, accepted, batches := [], [], [], [];
      new;
      hide Inv;
      StartInv(cfg, mode);
      assert View() == Start(cfg);
    }

    /** What a bounded push waits for. */
    method RoomFor(length: nat) returns (fits: bool)
      requires Valid()
      ensures fits == HasRoom(View().producer, length)
    {
      hide Inv;
      var room := producer.WriteableSize();
      fits := room >= length;
    }

    /** Push, from the point where its wait is over. */
    method Push(data: string) returns (admitted: bool)
      requires Valid() && Enabled(mode, View(), LogWorker.Push(data))
      modifies this, producer, producer.storage
      ensures Valid() && View() == Apply(cfg, mode, old(View()), LogWorker.Push(data))
      ensures admitted == !old(stop)
    {
      hide GrowTo, Inv;
      ghost var before := View();
      StepKeeps(cfg, mode, before, LogWorker.Push(data));
      if stop {
        return false;
      }
      producer.Push(cfg, data);
      waiting := waiting + [data];
      accepted := accepted + [data];
      admitted := true;
    }

    method Stop()
      requires Valid()
      modifies this`stop
      ensures Valid() && View() == Apply(cfg, mode, old(View()), RequestStop)
    {
      hide Inv;
      StepKeeps(cfg, mode, View(), RequestStop);
      stop := true;
    }

    /** The consumer's critical section, entered with data or with stop set: swap the buffers. */
    method TakeBatch()
      requires Valid() && Enabled(mode, View(), Take)
      modifies this, producer, consumer
      ensures Valid() && View() == Apply(cfg, mode, old(View()), Take)
    {
      hide Inv;
      StepKeeps(cfg, mode, View(), Take);
      producer.Swap(consumer);
      waiting, taken := taken, waiting;
      pc := Filled;
    }

    /** callback_: hand over everything readable. */
    method DeliverBatch()
      requires Valid() && Enabled(mode, View(), Deliver)
      modifies this
      ensures Valid() && View() == Apply(cfg, mode, old(View()), Deliver)
    {
      hide Inv;
      StepKeeps(cfg, mode, View(), Deliver);
      output := output + consumer.storage[consumer.readPos..consumer.writePos];
      batches := batches + [taken];
      pc := Flushed;
    }

    method RewindBatch()
      requires Valid() && Enabled(mode, View(), Rewind)
      modifies this, consumer
      ensures Valid() && View() == Apply(cfg, mode, old(View()), Rewind)
    {
      hide Inv;
      StepKeeps(cfg, mode, View(), Rewind);
      consumer.Clear();
      taken := [];
      pc := ReadStop;
    }

    /** The exit test: the stop flag first, then the producer buffer. */
    method TestExit() returns (exits: bool)
      requires Valid() && pc.ReadStop?
      modifies this`pc
      ensures Valid() && View() == old(View()).(pc := if exits then Done else Top)
      ensures exits == (stop && producer.Contents() == "")
      ensures exits ==> output == Concat(accepted)
    {
      StepKeeps(cfg, mode, View(), TestStop);
      if !stop {
        pc := Top;
        return false;
      }
      pc := ReadEmpty;
      StepKeeps(cfg, mode, View(), TestEmpty);
      var empty := producer.IsEmpty();
      pc := if empty then Done else Top;
      exits := empty;
      if exits {
        FlushedAll(cfg, mode, View());
      }
    }
  }

  lemma FlushedAll(cfg: Config, mode: Mode, s: State)
    requires Inv(cfg, mode, s) && s.pc.Done?
    ensures s.flushed == Concat(s.accepted)
  {
    ConcatSplit(Join(s.batches) + [], s.producer.messages);
    assert Join(s.batches) + [] == Join(s.batches);
    assert s.flushed + "" == s.flushed;
  }
}
