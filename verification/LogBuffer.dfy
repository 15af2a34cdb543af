/** The growable log buffer: capacity growth, in-place writes, swap and reset, and what they cost.
    reserve() is taken to allocate exactly what it is asked for. */
module LogBuffer {

  datatype Config = Config(bufferSize: nat, threshold: nat, linearGrowth: nat)

  /** Under these the growth loop always moves on. */
  predicate Grows(cfg: Config)
  {
    cfg.bufferSize > 0 && cfg.linearGrowth > 0
  }

  function NextCap(cfg: Config, cap: nat): nat
  {
    if cap < cfg.threshold then cap * 2 else cap + cfg.linearGrowth
  }

  /** Where the growth loop ends. */
  function GrowTo(cfg: Config, cap: nat, need: nat): nat
    requires Grows(cfg) && cap > 0
    decreases need - cap
  {
    if cap >= need then cap else GrowTo(cfg, NextCap(cfg, cap), need)
  }

  function Min(a: int, b: int): int { if a <= b then a else b }
  function Max(a: int, b: int): int { if a >= b then a else b }

  /** Growth reaches the need and overshoots by less than the last step could be. */
  lemma {:induction false} GrowthBounds(cfg: Config, cap: nat, need: nat)
    requires Grows(cfg) && cap > 0
    ensures var grown := GrowTo(cfg, cap, need);
      && grown >= need && grown >= cap
      && (cap < need ==> grown - need < Max(Min(need, cfg.threshold), cfg.linearGrowth))
      && (cap < need && cap < cfg.threshold ==> grown >= 2 * cap)
    decreases need - cap
  {
    if cap < need {
      GrowthBounds(cfg, NextCap(cfg, cap), need);
    }
  }

  /** From the threshold on the capacity grows by the linear step, as often as needed and no more. */
  lemma {:induction false} LinearGrowth(cfg: Config, cap: nat, need: nat) returns (steps: nat)
    requires Grows(cfg) && cap >= cfg.threshold && cap > 0
    ensures GrowTo(cfg, cap, need) == cap + steps * cfg.linearGrowth
    ensures steps > 0 ==> cap + (steps - 1) * cfg.linearGrowth < need
    decreases need - cap
  {
    if cap >= need {
      steps := 0;
    } else {
      var rest := LinearGrowth(cfg, cap + cfg.linearGrowth, need);
      steps := rest + 1;
      assert steps * cfg.linearGrowth == rest * cfg.linearGrowth + cfg.linearGrowth;
      if rest > 0 {
        assert rest * cfg.linearGrowth == (rest - 1) * cfg.linearGrowth + cfg.linearGrowth;
      }
    }
  }

  function Doubled(cap: nat, times: nat): nat
  {
    if times == 0 then cap else 2 * Doubled(cap, times - 1)
  }

  /** Below the threshold it doubles, as often as needed and while it is below. */
  lemma {:induction false} DoublingGrowth(cfg: Config, cap: nat, need: nat) returns (times: nat)
    requires Grows(cfg) && 0 < cap
    ensures var doubled := Doubled(cap, times);
      && doubled > 0 && GrowTo(cfg, cap, need) == GrowTo(cfg, doubled, need) && (doubled >= need || doubled >= cfg.threshold)
      && (times > 0 ==> Doubled(cap, times - 1) < need && Doubled(cap, times - 1) < cfg.threshold)
    decreases need - cap
  {
    if cap >= need || cap >= cfg.threshold {
      times := 0;
    } else {
      var rest := DoublingGrowth(cfg, 2 * cap, need);
      times := rest + 1;
      DoubledFirst(cap, rest);
      if rest > 0 {
        DoubledFirst(cap, rest - 1);
      }
    }
  }

  lemma {:induction false} DoubledFirst(cap: nat, times: nat)
    ensures Doubled(2 * cap, times) == Doubled(cap, times + 1)
  {
    if times > 0 {
      DoubledFirst(cap, times - 1);
    }
  }

  // ---- sizes over a run ---------------------------------------------------------------------------

  /** Capacity, vector size, write position, and bytes moved by reallocations so far. */
  datatype Extent = Extent(cap: nat, size: nat, write: nat, relocated: nat)

  function StartCap(cfg: Config, e: Extent): nat
  {
    if e.cap == 0 then cfg.bufferSize else e.cap
  }

  function Written(cfg: Config, e: Extent, length: nat): Extent
    requires Grows(cfg)
  {
    var cap := GrowTo(cfg, StartCap(cfg, e), e.write + length);
    Extent(
      Max(e.cap, cap),
      Max(e.size, e.write + length),
      e.write + length,
      e.relocated + if cap > e.cap then e.size else 0)
  }

  function Rewound(e: Extent): Extent
  {
    e.(write := 0)
  }

  datatype Op = Write(length: nat) | Reset

  function After(cfg: Config, e: Extent, op: Op): Extent
    requires Grows(cfg)
  {
    match op
    case Write(n) => Written(cfg, e, n)
    case Reset => Rewound(e)
  }

  function Initial(cfg: Config): Extent
  {
    Extent(cfg.bufferSize, cfg.bufferSize, 0, 0)
  }

  function RunOps(cfg: Config, ops: seq<Op>): Extent
    requires Grows(cfg)
  {
    if ops == [] then Initial(cfg) else After(cfg, RunOps(cfg, ops[..|ops| - 1]), ops[|ops| - 1])
  }

  /** Every reallocation of the run starts from a capacity below the threshold. */
  ghost predicate DoublesOnly(cfg: Config, ops: seq<Op>)
    requires Grows(cfg)
  {
    ops == [] ||
    var n := |ops| - 1;
    && DoublesOnly(cfg, ops[..n])
    && var before := RunOps(cfg, ops[..n]);
       (After(cfg, before, ops[n]).cap > before.cap ==> before.cap < cfg.threshold)
  }

  /** Doubling is amortized: while reallocations start below the threshold, all bytes ever relocated
      are fewer than the final capacity. */
  lemma {:induction false} DoublingAmortized(cfg: Config, ops: seq<Op>)
    requires Grows(cfg) && DoublesOnly(cfg, ops)
    ensures var e := RunOps(cfg, ops); e.relocated < e.cap && e.write <= e.size <= e.cap
  {
    if ops != [] {
      var n := |ops| - 1;
      DoublingAmortized(cfg, ops[..n]);
      var before := RunOps(cfg, ops[..n]);
      if ops[n].Write? {
        GrowthBounds(cfg, before.cap, before.write + ops[n].length);
      }
    }
  }

  /** A write into free space neither grows nor relocates. */
  lemma RoomMeansNoGrowth(cfg: Config, e: Extent, length: nat)
    requires Grows(cfg) && e.cap > 0 && e.write + length <= e.cap
    ensures Written(cfg, e, length).cap == e.cap && Written(cfg, e, length).relocated == e.relocated
  {}

  // ---- the buffer -----------------------------------------------------------------------------------

  class Buffer {
    var storage: array<char>
    var size: nat
    var writePos: nat
    var readPos: nat
    ghost var relocated: nat

    ghost predicate Valid()
      reads this
    {
      readPos <= writePos <= size <= storage.Length
    }

    /** What has been written and not consumed. */
    ghost function Contents(): seq<char>
      reads this, storage
      requires Valid()
    {
      storage[readPos..writePos]
    }

    ghost function Shape(): Extent
      reads this
    {
      Extent(storage.Length, size, writePos, relocated)
    }

    constructor (cfg: Config)
      ensures Valid() && fresh(storage)
      ensures Contents() == [] && readPos == 0 && Shape() == Initial(cfg)
    {
      storage := new char[cfg.bufferSize];
      size := cfg.bufferSize;
      writePos, readPos, relocated := 0, 0, 0;
    }

    method IsEmpty() returns (empty: bool)
      requires Valid()
      ensures empty <==> Contents() == []
    {
      empty := writePos == readPos;
    }

    method WriteableSize() returns (room: nat)
      requires Valid()
      ensures room == Shape().cap - Shape().write
    {
      room := storage.Length - writePos;
    }

    /** TobeEnough: grow the capacity to at least the need, keeping every byte. */
    method TobeEnough(cfg: Config, length: nat)
      requires Valid() && Grows(cfg)
      modifies this`storage, this`relocated
      ensures Valid() && Shape() == old(Shape()).(cap := Written(cfg, old(Shape()), length).cap,
                                                  relocated := Written(cfg, old(Shape()), length).relocated)
      ensures storage[..size] == old(storage[..size]) && Contents() == old(Contents())
      ensures storage == old(storage) || fresh(storage)
      ensures writePos + length <= storage.Length
    {
      var cap := storage.Length;
      var need := length + writePos;
      if cap == 0 {
        cap := cfg.bufferSize;
      }
      GrowthBounds(cfg, cap, need);
      while cap < need
        invariant cap > 0
        invariant GrowTo(cfg, cap, need) == GrowTo(cfg, StartCap(cfg, old(Shape())), need)
        modifies {}
        decreases need - cap
      {
        if cap < cfg.threshold {
          cap := cap * 2;
        } else {
          cap := cap + cfg.linearGrowth;
        }
      }
      if cap > storage.Length {
        var bigger := new char[cap];
        for i := 0 to size
          invariant forall j | 0 <= j < i :: bigger[j] == storage[j]
          modifies bigger
        {
          bigger[i] := storage[i];
        }
        relocated := relocated + size;
        assert bigger[..size] == storage[..size];
        assert bigger[readPos..writePos] == bigger[..size][readPos..writePos] == storage[readPos..writePos];
        storage := bigger;
      }
    }

    /** std::copy into the vector at the write position. */
    method CopyIn(data: seq<char>)
      requires readPos <= writePos && writePos + |data| <= storage.Length
      modifies storage
      ensures storage[readPos..writePos + |data|] == old(storage[readPos..writePos]) + data
    {
      for i := 0 to |data|
        invariant forall j | 0 <= j < writePos :: storage[j] == old(storage[j])
        invariant forall j | 0 <= j < i :: storage[writePos + j] == data[j]
        modifies storage
      {
        storage[writePos + i] := data[i];
      }
    }

    /** Push: make room, extend the vector, copy in place. */
    method Push(cfg: Config, data: seq<char>)
      requires Valid() && Grows(cfg)
      modifies this, storage
      ensures Valid() && readPos == old(readPos) && Shape() == Written(cfg, old(Shape()), |data|)
      ensures Contents() == old(Contents()) + data
      ensures storage == old(storage) || fresh(storage)
    {
      hide GrowTo;
      TobeEnough(cfg, |data|);
      if writePos + |data| > size {
        size := writePos + |data|;
      }
      CopyIn(data);
      writePos := writePos + |data|;
    }

    /** Swap exchanges everything, capacity included. */
    method Swap(other: Buffer)
      requires Valid() && other.Valid() && this != other
      modifies this, other
      ensures Valid() && other.Valid()
      ensures storage == old(other.storage) && other.storage == old(storage)
      ensures Contents() == old(other.Contents()) && other.Contents() == old(Contents())
      ensures Shape() == old(other.Shape()) && other.Shape() == old(Shape())
      ensures readPos == old(other.readPos) && other.readPos == old(readPos)
    {
      storage, other.storage := other.storage, storage;
      size, other.size := other.size, size;
      writePos, other.writePos := other.writePos, writePos;
      readPos, other.readPos := other.readPos, readPos;
      relocated, other.relocated := other.relocated, relocated;
    }

    method Clear()
      requires Valid()
      modifies this`writePos, this`readPos
      ensures Valid() && Contents() == [] && readPos == 0 && Shape() == Rewound(old(Shape()))
    {
      writePos, readPos := 0, 0;
    }
  }
}
