/** Membership of the load balancer: discovery rounds, health checks and selections over one list of
    workers and one hash ring. Each of them runs under the list's mutex, so each is one step. */
module Balancer {
  import opened Ring

  /** A capability text as std::stod sees it: missing, a number, or an exception. */
  datatype Metric = Absent | Reads(value: real) | Throws

  datatype Beat = Beat(id: Id, timestamp: int, healthy: bool, cpu: Metric, memory: Metric, disk: Metric, network: Metric)

  datatype Node = Node(
    id: Id, lastHeartbeat: int, healthy: bool,
    cpu: real, memory: real, disk: real, network: real,
    weight: int, processed: int, failed: int)

  const NEW_NODE := Node("", 0, true, 0.0, 0.0, 0.0, 0.0, 1, 0, 0)

  // ---- one worker -----------------------------------------------------------------------------

  function Truncate(x: real): int
  {
    if x >= 0.0 then x.Floor else -((-x).Floor)
  }

  function Min(x: real, y: real): real { if y < x then y else x }
  function Max(x: int, y: int): int { if x < y then y else x }

  /** calculate_worker_weight: never less than one. */
  function Weight(cpu: real, memory: real, network: real): (w: int)
    ensures w >= 1
  {
    var cpuFactor := 1.0 - cpu / 100.0;
    var memoryFactor := 1.0 - memory / 100.0;
    var networkFactor := Min(network / 1000.0, 1.0);
    Max(1, Truncate((cpuFactor + memoryFactor + networkFactor) / 3.0 * 10.0))
  }

  /** Idle machines on a full-speed network weigh ten, loaded ones less, none above ten. */
  lemma WeightBounds(cpu: real, memory: real, network: real)
    requires cpu >= 0.0 && memory >= 0.0
    ensures 1 <= Weight(cpu, memory, network) <= 10
    ensures cpu == 0.0 && memory == 0.0 && network >= 1000.0 ==> Weight(cpu, memory, network) == 10
  {}

  /** Free processor, free memory and network speed, in percent. */
  function FreePercent(cpu: real, memory: real, network: real): real
  {
    (100.0 - cpu) + (100.0 - memory) + if network > 1000.0 then 100.0 else network / 10.0
  }

  /** One for every full thirty percent free, and never less than one. */
  lemma WeightMeans(cpu: real, memory: real, network: real)
    ensures var free := FreePercent(cpu, memory, network); var w := Weight(cpu, memory, network);
      && free < (w + 1) as real * 30.0
      && (w > 1 ==> w as real * 30.0 <= free)
  {
    var cpuFactor, memoryFactor := 1.0 - cpu / 100.0, 1.0 - memory / 100.0;
    var networkFactor := Min(network / 1000.0, 1.0);
    var x := (cpuFactor + memoryFactor + networkFactor) / 3.0 * 10.0;
    assert 100.0 * networkFactor == if network > 1000.0 then 100.0 else network / 10.0;
    assert x * 30.0 == FreePercent(cpu, memory, network);
    assert x >= 0.0 ==> Truncate(x) as real <= x < (Truncate(x) + 1) as real;
  }

  function Taken(m: Metric, prior: real): real
  {
    if m.Reads? then m.value else prior
  }

  predicate BeatThrows(b: Beat)
  {
    b.cpu.Throws? || b.memory.Throws? || b.disk.Throws? || b.network.Throws?
  }

  /** The field updates of update_worker_node. An exception from stod leaves the node with the fields
      already assigned, its old weight included. */
  function Absorb(n: Node, b: Beat): Node
  {
    var n0 := n.(id := b.id, lastHeartbeat := b.timestamp, healthy := b.healthy);
    if b.cpu.Throws? then n0 else
    var n1 := n0.(cpu := Taken(b.cpu, n0.cpu));
    if b.memory.Throws? then n1 else
    var n2 := n1.(memory := Taken(b.memory, n1.memory));
    if b.disk.Throws? then n2 else
    var n3 := n2.(disk := Taken(b.disk, n2.disk));
    if b.network.Throws? then n3 else
    var n4 := n3.(network := Taken(b.network, n3.network));
    n4.(weight := Weight(n4.cpu, n4.memory, n4.network))
  }

  function Deduction(usage: real, high: real, middle: real, low: real): real
  {
    if usage > 90.0 then high else if usage > 80.0 then middle else if usage > 70.0 then low else 0.0
  }

  function HealthScore(n: Node): (score: real)
    ensures 0.0 <= score <= 1.0
  {
    var load := 1.0 - Deduction(n.cpu, 0.3, 0.2, 0.1) - Deduction(n.memory, 0.3, 0.2, 0.1) - Deduction(n.disk, 0.2, 0.1, 0.0);
    var failures :=
      if n.processed <= 0 then 0.0
      else var rate := n.failed as real / n.processed as real;
           if rate > 0.1 then 0.3 else if rate > 0.05 then 0.2 else 0.0;
    var score := load - failures;
    if score < 0.0 then 0.0 else score
  }

  /** One when a figure is beyond a mark. */
  function Beyond(figure: real, mark: int): nat { if figure > mark as real then 1 else 0 }

  /** More than one task in ten failed, or more than one in twenty. */
  function FailurePoints(processed: int, failed: int): nat
  {
    if processed <= 0 then 0 else if 10 * failed > processed then 3 else if 20 * failed > processed then 2 else 0
  }

  /** The marks a worker has passed. */
  function Points(n: Node): nat
  {
    Beyond(n.cpu, 70) + Beyond(n.cpu, 80) + Beyond(n.cpu, 90) +
    Beyond(n.memory, 70) + Beyond(n.memory, 80) + Beyond(n.memory, 90) +
    Beyond(n.disk, 80) + Beyond(n.disk, 90) + FailurePoints(n.processed, n.failed)
  }

  lemma Quotient(f: real, p: real, c: real)
    requires p > 0.0
    ensures f / p > c <==> f > c * p
  {
    var q := f / p;
    assert q * p == f;
    Product(q - c, p);
    assert (q - c) * p == q * p - c * p;
  }

  lemma Product(x: real, p: real)
    requires p > 0.0
    ensures x * p > 0.0 <==> x > 0.0
  {}

  lemma RateMeans(processed: int, failed: int)
    requires processed > 0
    ensures failed as real / processed as real > 0.1 <==> 10 * failed > processed
    ensures failed as real / processed as real > 0.05 <==> 20 * failed > processed
  {
    var p, f := processed as real, failed as real;
    Quotient(f, p, 0.1);
    Quotient(f, p, 0.05);
    assert (10 * failed) as real == 10.0 * f && (20 * failed) as real == 20.0 * f;
  }

  /** A tenth off the score for every mark passed, down to zero. */
  lemma ScoreMeans(n: Node)
    ensures 10.0 * HealthScore(n) == if Points(n) >= 10 then 0.0 else (10 - Points(n)) as real
  {
    if n.processed > 0 {
      RateMeans(n.processed, n.failed);
    }
  }

  /** More load and more failures never raise the score. */
  lemma ScoreFalls(n: Node, worse: Node)
    requires n.cpu <= worse.cpu && n.memory <= worse.memory && n.disk <= worse.disk
    requires n.processed == worse.processed && n.failed <= worse.failed
    ensures HealthScore(worse) <= HealthScore(n)
  {
    hide HealthScore;
    ScoreMeans(n);
    ScoreMeans(worse);
  }

  /** A check turns a worker off exactly when it was silent for more than thirty seconds or has passed more
      than seven marks, and changes nothing else. */
  lemma CheckMeans(n: Node, now: int)
    ensures Examine(n, now) == n.(healthy := n.healthy && now - n.lastHeartbeat <= 30 && Points(n) <= 7)
  {
    hide HealthScore;
    ScoreMeans(n);
  }

  function Examine(n: Node, now: int): Node
  {
    n.(healthy := n.healthy && now - n.lastHeartbeat <= 30 && HealthScore(n) >= 0.3)
  }

  // ---- the list -------------------------------------------------------------------------------

  function Ids(nodes: seq<Node>): (ids: seq<Id>)
    ensures |ids| == |nodes| && forall i | 0 <= i < |nodes| :: ids[i] == nodes[i].id
  {
    seq(|nodes|, i requires 0 <= i < |nodes| => nodes[i].id)
  }

  /** The ids of the healthy workers, in list order. */
  function HealthyIds(nodes: seq<Node>): seq<Id>
  {
    if nodes == [] then []
    else
      var n := |nodes| - 1;
      HealthyIds(nodes[..n]) + if nodes[n].healthy then [nodes[n].id] else []
  }

  /** Position of the worker with this id, or the length of the list. */
  function Find(nodes: seq<Node>, id: Id): (i: nat)
    ensures i <= |nodes| && (i < |nodes| ==> nodes[i].id == id)
    ensures forall j | 0 <= j < i :: nodes[j].id != id
  {
    if nodes == [] || nodes[0].id == id then 0 else 1 + Find(nodes[1..], id)
  }

  function Update(nodes: seq<Node>, b: Beat): seq<Node>
  {
    var i := Find(nodes, b.id);
    if i < |nodes| then nodes[i := Absorb(nodes[i], b)] else nodes + [Absorb(NEW_NODE, b)]
  }

  /** The heartbeats of one listing, in order, up to and including the first that throws. */
  function UpdateAll(nodes: seq<Node>, beats: seq<Beat>): seq<Node>
    decreases |beats|
  {
    if beats == [] then nodes
    else if BeatThrows(beats[0]) then Update(nodes, beats[0])
    else UpdateAll(Update(nodes, beats[0]), beats[1..])
  }

  function KeepActive(nodes: seq<Node>, active: seq<Id>): seq<Node>
  {
    if nodes == [] then []
    else
      var n := |nodes| - 1;
      KeepActive(nodes[..n], active) + if nodes[n].id in active then [nodes[n]] else []
  }

  function ExamineAll(nodes: seq<Node>, now: int): seq<Node>
  {
    seq(|nodes|, i requires 0 <= i < |nodes| => Examine(nodes[i], now))
  }

  // ---- steps ----------------------------------------------------------------------------------

  /** `rebuilt` is the healthy list the ring was last built from. */
  datatype State = State(nodes: seq<Node>, ring: map<nat, Id>, rebuilt: seq<Id>)

  const START := State([], map[], [])

  datatype Event =
    | Discovery(beats: seq<Beat>, active: seq<Id>)  // beats parsed from the listed children, and their names
    | HealthCheck(now: int)
    | Selection(task: string)

  predicate AllBeatsRead(beats: seq<Beat>)
  {
    forall i | 0 <= i < |beats| :: !BeatThrows(beats[i])
  }

  /** A round in which stod throws keeps the updates made so far and skips removal and rebuild. */
  function Step(hash: Hash, s: State, e: Event): State
  {
    match e
    case Discovery(beats, active) =>
      var updated := UpdateAll(s.nodes, beats);
      if !AllBeatsRead(beats) then s.(nodes := updated)
      else
        var kept := KeepActive(updated, active);
        State(kept, RingOf(hash, HealthyIds(kept)), HealthyIds(kept))
    case HealthCheck(now) => s.(nodes := ExamineAll(s.nodes, now))
    case Selection(_) => s
  }

  function Run(hash: Hash, events: seq<Event>): State
  {
    if events == [] then START else Step(hash, Run(hash, events[..|events| - 1]), events[|events| - 1])
  }

  ghost predicate CleanRun(events: seq<Event>)
  {
    forall i | 0 <= i < |events| && events[i].Discovery? :: AllBeatsRead(events[i].beats)
  }

  // ---- what every step keeps --------------------------------------------------------------------

  ghost predicate Weighted(nodes: seq<Node>)
  {
    forall i | 0 <= i < |nodes| :: nodes[i].weight >= 1
  }

  /** What even a throwing round keeps. */
  ghost predicate Base(hash: Hash, s: State)
  {
    && Unique(Ids(s.nodes)) && Weighted(s.nodes)
    && s.ring == RingOf(hash, s.rebuilt)
    && (forall id | id in s.rebuilt :: id in Ids(s.nodes))
    && Unique(s.rebuilt)
  }

  ghost predicate Inv(hash: Hash, s: State)
  {
    Base(hash, s) && Subsequence(HealthyIds(s.nodes), s.rebuilt)
  }

  /** A figure after a heartbeat: the one it reads, or the one there was; nothing is taken once an earlier
      capability has thrown. */
  predicate Follows(after: real, before: real, m: Metric, thrown: bool)
  {
    after == if m.Reads? && !thrown then m.value else before
  }

  /** A heartbeat reaches the worker with its id, which joins at the end of the list if it is new, and
      nobody else. An unreadable capability leaves the later figures and the weight as they were. */
  lemma UpdateMeans(nodes: seq<Node>, b: Beat) returns (i: nat)
    ensures var after := Update(nodes, b);
      && i < |after| && after[i].id == b.id && (forall j | 0 <= j < i :: after[j].id != b.id)
      && (|after| == |nodes| || (i == |nodes| && |after| == |nodes| + 1))
      && (forall j | 0 <= j < |nodes| && j != i :: after[j] == nodes[j])
      && after[i].lastHeartbeat == b.timestamp && after[i].healthy == b.healthy
      && var before := if i < |nodes| then nodes[i] else Node(b.id, 0, true, 0.0, 0.0, 0.0, 0.0, 1, 0, 0);
         && before.id == b.id
         && Follows(after[i].cpu, before.cpu, b.cpu, false)
         && Follows(after[i].memory, before.memory, b.memory, b.cpu.Throws?)
         && Follows(after[i].disk, before.disk, b.disk, b.cpu.Throws? || b.memory.Throws?)
         && Follows(after[i].network, before.network, b.network, b.cpu.Throws? || b.memory.Throws? || b.disk.Throws?)
         && after[i].weight == (if BeatThrows(b) then before.weight else Weight(after[i].cpu, after[i].memory, after[i].network))
         && after[i].processed == before.processed && after[i].failed == before.failed
  {
    hide Weight;
    i := Find(nodes, b.id);
  }

  lemma UpdateKeeps(nodes: seq<Node>, b: Beat)
    requires Unique(Ids(nodes)) && Weighted(nodes)
    ensures Unique(Ids(Update(nodes, b))) && Weighted(Update(nodes, b))
    ensures forall id | id in Ids(nodes) :: id in Ids(Update(nodes, b))
  {
    var i := Find(nodes, b.id);
    var after := Update(nodes, b);
    forall id | id in Ids(nodes) ensures id in Ids(after) {
      var j :| 0 <= j < |nodes| && Ids(nodes)[j] == id;
      assert Ids(after)[j] == id;
    }
    if i == |nodes| {
      forall j, k | 0 <= j < k < |after| ensures Ids(after)[j] != Ids(after)[k] {
        assert after[j] == nodes[j];
        if k < |nodes| {
          assert Ids(nodes)[j] != Ids(nodes)[k];
        }
      }
    } else {
      assert Ids(after) == Ids(nodes);
    }
  }

  /** The worker stands in the list as this heartbeat left it. */
  ghost predicate Heard(nodes: seq<Node>, b: Beat)
  {
    exists i | 0 <= i < |nodes| :: nodes[i].id == b.id && nodes[i].lastHeartbeat == b.timestamp && nodes[i].healthy == b.healthy
  }

  lemma UpdateHeard(nodes: seq<Node>, b: Beat, other: Beat)
    ensures Heard(Update(nodes, b), b)
    ensures other.id != b.id && Heard(nodes, other) ==> Heard(Update(nodes, b), other)
  {
    hide Update;
    var i := UpdateMeans(nodes, b);
    var after := Update(nodes, b);
    assert after[i].id == b.id;
    if other.id != b.id && Heard(nodes, other) {
      var j :| 0 <= j < |nodes| && nodes[j].id == other.id && nodes[j].lastHeartbeat == other.timestamp
        && nodes[j].healthy == other.healthy;
      assert j != i ==> after[j] == nodes[j];
    }
  }

  /** After a listing whose heartbeats all read, every listed worker stands as its last heartbeat says. */
  lemma {:induction false} ListingHeard(nodes: seq<Node>, beats: seq<Beat>, j: nat)
    requires AllBeatsRead(beats) && j < |beats| && forall m | j < m < |beats| :: beats[m].id != beats[j].id
    ensures Heard(UpdateAll(nodes, beats), beats[j])
    decreases |beats|
  {
    hide Update, Heard;
    UpdateHeard(nodes, beats[0], beats[0]);
    var rest := beats[1..];
    if j > 0 {
      assert beats[j] == rest[j - 1];
      ListingHeard(Update(nodes, beats[0]), rest, j - 1);
    } else {
      HeardStays(Update(nodes, beats[0]), rest, beats[0]);
    }
  }

  lemma {:induction false} HeardStays(nodes: seq<Node>, beats: seq<Beat>, b: Beat)
    requires AllBeatsRead(beats) && Heard(nodes, b) && forall m | 0 <= m < |beats| :: beats[m].id != b.id
    ensures Heard(UpdateAll(nodes, beats), b)
    decreases |beats|
  {
    hide Update, Heard;
    if beats != [] {
      UpdateHeard(nodes, beats[0], b);
      HeardStays(Update(nodes, beats[0]), beats[1..], b);
    }
  }

  lemma {:induction false} UpdateAllKeeps(nodes: seq<Node>, beats: seq<Beat>)
    requires Unique(Ids(nodes)) && Weighted(nodes)
    ensures Unique(Ids(UpdateAll(nodes, beats))) && Weighted(UpdateAll(nodes, beats))
    ensures forall id | id in Ids(nodes) :: id in Ids(UpdateAll(nodes, beats))
    decreases |beats|
  {
    if beats != [] {
      UpdateKeeps(nodes, beats[0]);
      if !BeatThrows(beats[0]) {
        UpdateAllKeeps(Update(nodes, beats[0]), beats[1..]);
      }
    }
  }

  lemma {:induction false} KeepActiveKeeps(nodes: seq<Node>, active: seq<Id>)
    requires Unique(Ids(nodes)) && Weighted(nodes)
    ensures var kept := KeepActive(nodes, active);
      && Unique(Ids(kept)) && Weighted(kept)
      && forall id :: id in Ids(kept) <==> id in Ids(nodes) && id in active
  {
    hide Ids, Unique;
    if nodes == [] {
      NoIds();
    } else {
      var n := |nodes| - 1;
      var front, last := nodes[..n], nodes[n];
      IdsAppend(front, last);
      assert nodes == front + [last];
      UniqueAppend(Ids(front), last.id);
      KeepActiveKeeps(front, active);
      var kept := KeepActive(front, active);
      if last.id in active {
        assert KeepActive(nodes, active) == kept + [last];
        IdsAppend(kept, last);
        UniqueAppend(Ids(kept), last.id);
      } else {
        assert KeepActive(nodes, active) == kept;
      }
    }
  }

  /** Erasing keeps exactly the listed workers, as they are and in their order. */
  lemma {:induction false} KeepActiveMeans(nodes: seq<Node>, active: seq<Id>) returns (at: seq<nat>)
    ensures var kept := KeepActive(nodes, active);
      && |at| == |kept| && (forall i | 0 <= i < |at| :: at[i] < |nodes| && kept[i] == nodes[at[i]])
      && (forall i, j | 0 <= i < j < |at| :: at[i] < at[j])
      && forall n :: n in kept <==> n in nodes && n.id in active
  {
    if nodes == [] {
      at := [];
    } else {
      var n := |nodes| - 1;
      at := KeepActiveMeans(nodes[..n], active);
      assert nodes == nodes[..n] + [nodes[n]];
      if nodes[n].id in active {
        at := at + [n];
      }
    }
  }

  /** The healthy list has the id of every healthy worker and no other; HealthyEmbeds gives its order. */
  lemma {:induction false} HealthyMeans(nodes: seq<Node>, id: Id)
    ensures id in HealthyIds(nodes) <==> exists i | 0 <= i < |nodes| :: nodes[i].healthy && nodes[i].id == id
  {
    if nodes != [] {
      var n := |nodes| - 1;
      HealthyMeans(nodes[..n], id);
      assert nodes == nodes[..n] + [nodes[n]];
      if i :| 0 <= i < |nodes| && nodes[i].healthy && nodes[i].id == id {
        assert i < n ==> nodes[..n][i] == nodes[i];
      }
    }
  }

  lemma NoIds()
    ensures Ids([]) == [] && Unique([])
  {}

  lemma IdsAppend(nodes: seq<Node>, last: Node)
    ensures Ids(nodes + [last]) == Ids(nodes) + [last.id]
  {}

  /** The healthy ids are the list's ids with the unhealthy left out. */
  lemma {:induction false} HealthyEmbeds(nodes: seq<Node>) returns (at: seq<nat>)
    ensures Embeds(HealthyIds(nodes), Ids(nodes), at)
  {
    hide Ids, Embeds;
    if nodes == [] {
      NoIds();
      at := [];
      NothingEmbeds();
    } else {
      var n := |nodes| - 1;
      var front, last := nodes[..n], nodes[n];
      at := HealthyEmbeds(front);
      IdsAppend(front, last);
      assert nodes == front + [last];
      if last.healthy {
        EmbedsBoth(HealthyIds(front), Ids(front), at, last.id);
        at := at + [|Ids(front)|];
      } else {
        EmbedsWider(HealthyIds(front), Ids(front), at, last.id);
        assert HealthyIds(nodes) == HealthyIds(front);
      }
    }
  }

  lemma NothingEmbeds()
    ensures Embeds([], [], [])
  {}

  lemma HealthyAreMembers(nodes: seq<Node>)
    requires Unique(Ids(nodes))
    ensures Unique(HealthyIds(nodes)) && forall id | id in HealthyIds(nodes) :: id in Ids(nodes)
  {
    var at := HealthyEmbeds(nodes);
    SubsequenceOfUnique(HealthyIds(nodes), Ids(nodes));
  }

  /** A health check only takes workers off the healthy list. */
  lemma {:induction false} ExamineEmbeds(nodes: seq<Node>, now: int) returns (at: seq<nat>)
    ensures Embeds(HealthyIds(ExamineAll(nodes, now)), HealthyIds(nodes), at)
  {
    hide Embeds, Examine;
    var after := ExamineAll(nodes, now);
    if nodes == [] {
      at := [];
      NothingEmbeds();
    } else {
      var n := |nodes| - 1;
      var front := nodes[..n];
      at := ExamineEmbeds(front, now);
      var checked := ExamineAll(front, now);
      assert after[..n] == checked;
      ExamineNarrows(nodes[n], now);
      if after[n].healthy {
        EmbedsBoth(HealthyIds(checked), HealthyIds(front), at, nodes[n].id);
        at := at + [|HealthyIds(front)|];
      } else {
        assert HealthyIds(after) == HealthyIds(checked);
        if nodes[n].healthy {
          EmbedsWider(HealthyIds(checked), HealthyIds(front), at, nodes[n].id);
        } else {
          assert HealthyIds(nodes) == HealthyIds(front);
        }
      }
    }
  }

  lemma ExamineNarrows(n: Node, now: int)
    ensures Examine(n, now).id == n.id && (Examine(n, now).healthy ==> n.healthy)
  {}

  lemma StepKeeps(hash: Hash, s: State, e: Event)
    requires Inv(hash, s)
    requires e.Discovery? ==> AllBeatsRead(e.beats)
    ensures Inv(hash, Step(hash, s, e))
  {
    hide RingOf;
    match e
    case Discovery(beats, active) =>
      UpdateAllKeeps(s.nodes, beats);
      var updated := UpdateAll(s.nodes, beats);
      KeepActiveKeeps(updated, active);
      var kept := KeepActive(updated, active);
      HealthyAreMembers(kept);
      SelfEmbeds(HealthyIds(kept));
    case HealthCheck(now) =>
      var after := ExamineAll(s.nodes, now);
      assert Ids(after) == Ids(s.nodes);
      var at := ExamineEmbeds(s.nodes, now);
      SubsequenceTrans(HealthyIds(after), HealthyIds(s.nodes), s.rebuilt);
    case Selection(_) =>
  }

  lemma {:induction false} RunKeeps(hash: Hash, events: seq<Event>)
    requires CleanRun(events)
    ensures Inv(hash, Run(hash, events))
  {
    if events == [] {
      SelfEmbeds([]);
    } else {
      RunKeeps(hash, events[..|events| - 1]);
      StepKeeps(hash, Run(hash, events[..|events| - 1]), events[|events| - 1]);
    }
  }

  lemma BaseKeeps(hash: Hash, s: State, e: Event)
    requires Base(hash, s)
    ensures Base(hash, Step(hash, s, e))
  {
    hide RingOf;
    match e
    case Discovery(beats, active) =>
      UpdateAllKeeps(s.nodes, beats);
      var updated := UpdateAll(s.nodes, beats);
      KeepActiveKeeps(updated, active);
      HealthyAreMembers(KeepActive(updated, active));
    case HealthCheck(now) => assert Ids(ExamineAll(s.nodes, now)) == Ids(s.nodes);
    case Selection(_) =>
  }

  lemma {:induction false} BaseAlong(hash: Hash, events: seq<Event>)
    ensures Base(hash, Run(hash, events))
  {
    hide Step;
    if events != [] {
      BaseAlong(hash, events[..|events| - 1]);
      BaseKeeps(hash, Run(hash, events[..|events| - 1]), events[|events| - 1]);
    }
  }

  /** select_consistent_hash is reached when some worker is healthy now. */
  predicate LookupReached(s: State)
  {
    HealthyIds(s.nodes) != []
  }

  /** Over every interleaving of discovery rounds whose heartbeats all read, health checks and
      selections: worker ids stay unique, weights stay positive, and whenever the hash lookup is
      reached the ring is not empty and its answer is a current member that was healthy at the last
      rebuild. */
  lemma LookupAnswersMember(hash: Hash, events: seq<Event>, task: string)
    requires CleanRun(events)
    ensures var s := Run(hash, events);
      && Unique(Ids(s.nodes)) && Weighted(s.nodes)
      && (LookupReached(s) ==>
            && s.ring != map[] && s.rebuilt != []
            && s.ring[Lookup(s.ring, Hash32(hash, task))] == Owner(hash, s.rebuilt, task)
            && Owner(hash, s.rebuilt, task) in s.rebuilt
            && Owner(hash, s.rebuilt, task) in Ids(s.nodes))
  {
    hide RingOf;
    RunKeeps(hash, events);
    var s := Run(hash, events);
    if LookupReached(s) {
      var at: seq<nat> :| Embeds(HealthyIds(s.nodes), s.rebuilt, at);
      assert at[0] < |s.rebuilt|;
      RingPoints(hash, s.rebuilt);
      var p := OwnerIsNearest(hash, s.rebuilt, task);
    }
  }

  predicate Rebuilds(e: Event)
  {
    e.Discovery? && AllBeatsRead(e.beats)
  }

  /** How many events there are up to and including the last discovery round whose heartbeats all read. */
  function LastRebuild(events: seq<Event>): (n: nat)
    ensures n <= |events| && forall j | n <= j < |events| :: !Rebuilds(events[j])
  {
    if events == [] || Rebuilds(events[|events| - 1]) then |events| else LastRebuild(events[..|events| - 1])
  }

  /** The ids healthy when the ring was last rebuilt. */
  function HealthyThen(hash: Hash, events: seq<Event>): seq<Id>
  {
    HealthyIds(Run(hash, events[..LastRebuild(events)]).nodes)
  }

  lemma {:induction false} RebuiltFrom(hash: Hash, events: seq<Event>)
    ensures Run(hash, events).rebuilt == HealthyThen(hash, events)
  {
    hide RingOf, UpdateAll, KeepActive, ExamineAll;
    if events != [] {
      var n := |events| - 1;
      if Rebuilds(events[n]) {
        assert events[..|events|] == events;
      } else {
        RebuiltFrom(hash, events[..n]);
        assert events[..n][..LastRebuild(events)] == events[..LastRebuild(events)];
      }
    }
  }

  lemma SomethingInside(a: seq<Id>, b: seq<Id>, at: seq<nat>)
    requires Embeds(a, b, at) && a != []
    ensures b != []
  {
    assert at[0] < |b|;
  }

  /** Without discovery rounds nobody becomes healthy. */
  lemma {:induction false} QuietStaysEmpty(hash: Hash, events: seq<Event>, at: nat)
    requires at <= |events| && (forall j | at <= j < |events| :: !events[j].Discovery?)
    requires HealthyIds(Run(hash, events[..at]).nodes) == []
    ensures HealthyIds(Run(hash, events).nodes) == []
  {
    hide RingOf, UpdateAll, KeepActive, ExamineAll, HealthyIds;
    if at == |events| {
      assert events[..at] == events;
    } else {
      var n := |events| - 1;
      var front := events[..n];
      assert front[..at] == events[..at];
      QuietStaysEmpty(hash, front, at);
      assert !events[n].Discovery?;
      if events[n].HealthCheck? {
        var kept := ExamineEmbeds(Run(hash, front).nodes, events[n].now);
        assert Run(hash, events).nodes == ExamineAll(Run(hash, front).nodes, events[n].now);
        if HealthyIds(Run(hash, events).nodes) != [] {
          SomethingInside(HealthyIds(Run(hash, events).nodes), HealthyIds(Run(hash, front).nodes), kept);
        }
      } else {
        assert Run(hash, events) == Step(hash, Run(hash, front), events[n]);
      }
    }
  }

  /** Over every run, throwing rounds included: the lookup meets an empty ring exactly when somebody is
      healthy now and nobody was after the last round whose heartbeats all read, and that takes a
      throwing round since. On any other ring it answers a current member that was healthy then. */
  lemma LookupFailsExactly(hash: Hash, events: seq<Event>, task: string)
    ensures var s := Run(hash, events);
      && Unique(Ids(s.nodes)) && Weighted(s.nodes)
      && (LookupReached(s) && s.ring == map[] <==> HealthyIds(s.nodes) != [] && HealthyThen(hash, events) == [])
      && (LookupReached(s) && s.ring == map[] ==>
            exists j | LastRebuild(events) <= j < |events| :: events[j].Discovery? && !AllBeatsRead(events[j].beats))
      && (s.ring != map[] ==>
            var answer := s.ring[Lookup(s.ring, Hash32(hash, task))];
            answer in HealthyThen(hash, events) && answer in Ids(s.nodes))
  {
    hide RingOf, Run;
    BaseAlong(hash, events);
    RebuiltFrom(hash, events);
    var s := Run(hash, events);
    RingPoints(hash, s.rebuilt);
    if LookupReached(s) && s.ring == map[] {
      if forall j | LastRebuild(events) <= j < |events| :: !events[j].Discovery? {
        QuietStaysEmpty(hash, events, LastRebuild(events));
        assert false;
      }
      var j :| LastRebuild(events) <= j < |events| && events[j].Discovery?;
      assert !Rebuilds(events[j]);
    }
  }

  /** The heartbeats must read: one round with an unparsable number admits a healthy worker and leaves
      the ring empty, and then the lookup is reached with nothing to look up. */
  lemma ThrowingRoundBreaksLookup(hash: Hash, active: seq<Id>)
    ensures var b := Beat("w", 0, true, Throws, Absent, Absent, Absent);
      var s := Run(hash, [Discovery([b], active)]);
      LookupReached(s) && s.ring == map[]
  {
    var b := Beat("w", 0, true, Throws, Absent, Absent, Absent);
    var events := [Discovery([b], active)];
    assert events[..0] == [];
    assert Run(hash, events) == Step(hash, START, events[0]);
    assert !AllBeatsRead([b]) by { assert BeatThrows([b][0]); }
    assert UpdateAll([], [b]) == Update([], b) == [Absorb(NEW_NODE, b)];
    var nodes := [Absorb(NEW_NODE, b)];
    assert nodes[..0] == [];
    assert HealthyIds(nodes) == ["w"];
  }

  /** Consecutive rebuilds with workers only leaving: a task whose owner stays keeps it. */
  lemma RebuildStability(hash: Hash, earlier: State, later: State, task: string)
    requires Inv(hash, earlier) && Inv(hash, later) && Subsequence(later.rebuilt, earlier.rebuilt)
    requires later.rebuilt != [] && earlier.rebuilt != [] && Owner(hash, earlier.rebuilt, task) in later.rebuilt
    ensures earlier.ring != map[] && later.ring != map[]
    ensures later.ring[Lookup(later.ring, Hash32(hash, task))] == earlier.ring[Lookup(earlier.ring, Hash32(hash, task))]
  {
    RingPoints(hash, earlier.rebuilt);
    RingPoints(hash, later.rebuilt);
    Stability(hash, earlier.rebuilt, later.rebuilt, task);
  }
}
