/** The load balancer object: its list, ring and counter updated in place by the loops of the source,
    each critical section proved to be the corresponding step of module Balancer. */
module LoadBalancer {
  import opened Ring
  import opened RoundRobin
  import opened Balancer

  datatype Strategy = PlainRoundRobin | WeightedRoundRobin | ConsistentHash

  datatype Choice = NoWorker | Worker(id: Id)

  /** std::map::lower_bound followed by the wrap to begin(). */
  method LowerBoundWrap(points: set<nat>, h: nat) returns (p: nat)
    requires points != {}
    ensures IsLookup(points, h, p)
  {
    p :| p in points;
    var rest := points - {p};
    while rest != {}
      invariant rest <= points && p in points && p !in rest
      invariant IsLookup(points - rest, h, p)
      decreases |rest|
    {
      var q :| q in rest;
      ghost var seen := points - rest;
      rest := rest - {q};
      assert points - rest == seen + {q};
      if (q >= h && (p < h || q < p)) || (q < h && p < h && q < p) {
        p := q;
      }
    }
    assert points - rest == points;
  }

  /** The healthy workers, in list order. */
  function Healthy(nodes: seq<Node>): seq<Node>
  {
    if nodes == [] then []
    else var n := |nodes| - 1; Healthy(nodes[..n]) + if nodes[n].healthy then [nodes[n]] else []
  }

  lemma {:induction false} HealthyHasIds(nodes: seq<Node>)
    ensures Ids(Healthy(nodes)) == HealthyIds(nodes)
    ensures Weighted(nodes) ==> Weighted(Healthy(nodes))
  {
    if nodes != [] {
      HealthyHasIds(nodes[..|nodes| - 1]);
    }
  }

  function Weights(nodes: seq<Node>): (ws: seq<int>)
    ensures |ws| == |nodes| && forall i | 0 <= i < |nodes| :: ws[i] == nodes[i].weight
  {
    seq(|nodes|, i requires 0 <= i < |nodes| => nodes[i].weight)
  }

  class LoadBalancer {
    const hash: Hash
    var nodes: seq<Node>
    var ring: map<nat, Id>
    var counter: nat
    ghost var rebuilt: seq<Id>

    ghost function Contents(): State
      reads this
    {
      State(nodes, ring, rebuilt)
    }

    ghost predicate Valid()
      reads this
    {
      Inv(hash, Contents())
    }

    constructor (hash: Hash)
      ensures Valid() && Contents() == START && counter == 0 && this.hash == hash
    {
      this.hash := hash;
      nodes, ring, counter, rebuilt := [], map[], 0, [];
      SelfEmbeds([]);
    }

    /** update_worker_node: the find_if scan, then the field updates, up to an exception. */
    method UpdateWorkerNode(b: Beat) returns (threw: bool)
      modifies this`nodes
      ensures nodes == Update(old(nodes), b)
      ensures threw == BeatThrows(b)
    {
      var i := 0;
      while i < |nodes| && nodes[i].id != b.id
        invariant 0 <= i <= |nodes|
        invariant forall j | 0 <= j < i :: nodes[j].id != b.id
      {
        i := i + 1;
      }
      FindIs(nodes, b.id, i);
      if i == |nodes| {
        nodes := nodes + [Absorb(NEW_NODE, b)];
      } else {
        nodes := nodes[i := Absorb(nodes[i], b)];
      }
      threw := BeatThrows(b);
    }

    /** remove_inactive_workers: erase what the listing no longer names, order kept. */
    method RemoveInactiveWorkers(active: seq<Id>)
      modifies this`nodes
      ensures nodes == KeepActive(old(nodes), active)
    {
      var kept := [];
      for i := 0 to |nodes|
        invariant kept == KeepActive(nodes[..i], active)
      {
        assert nodes[..i + 1][..i] == nodes[..i];
        if nodes[i].id in active {
          kept := kept + [nodes[i]];
        }
      }
      assert nodes[..|nodes|] == nodes;
      nodes := kept;
    }

    /** update_consistent_hash_ring: clear, then 150 insertions per healthy worker. */
    method UpdateConsistentHashRing()
      modifies this`ring, this`rebuilt
      ensures rebuilt == HealthyIds(nodes) && ring == RingOf(hash, rebuilt)
    {
      hide Insert, Point;
      ring := map[];
      ghost var listed: seq<Id> := [];
      for i := 0 to |nodes|
        invariant listed == HealthyIds(nodes[..i])
        invariant ring == RingOf(hash, listed)
      {
        assert nodes[..i + 1][..i] == nodes[..i];
        if nodes[i].healthy {
          ghost var before := ring;
          InsertNone(hash, before, nodes[i].id);
          for v := 0 to VIRTUAL_NODES
            invariant ring == Insert(hash, before, nodes[i].id, v)
          {
            InsertOne(hash, before, nodes[i].id, v);
            ring := ring[Point(hash, nodes[i].id, v) := nodes[i].id];
          }
          assert (listed + [nodes[i].id])[..|listed|] == listed;
          listed := listed + [nodes[i].id];
        }
      }
      assert nodes[..|nodes|] == nodes;
      rebuilt := listed;
    }

    /** One turn of the discovery loop. */
    method DiscoveryRound(beats: seq<Beat>, active: seq<Id>)
      modifies this`nodes, this`ring, this`rebuilt
      ensures Contents() == Step(hash, old(Contents()), Discovery(beats, active))
      ensures old(Base(hash, Contents())) ==> Base(hash, Contents())
      ensures old(Valid()) && AllBeatsRead(beats) ==> Valid()
    {
      hide RingOf, KeepActive, Update, Base;
      ghost var before := Contents();
      if Base(hash, before) {
        BaseKeeps(hash, before, Discovery(beats, active));
      }
      for i := 0 to |beats|
        invariant UpdateAll(nodes, beats[i..]) == UpdateAll(before.nodes, beats)
        invariant forall j | 0 <= j < i :: !BeatThrows(beats[j])
        invariant ring == before.ring && rebuilt == before.rebuilt
      {
        assert beats[i..][0] == beats[i] && beats[i..][1..] == beats[i + 1..];
        var threw := UpdateWorkerNode(beats[i]);
        if threw {
          return;
        }
      }
      assert beats[|beats|..] == [];
      RemoveInactiveWorkers(active);
      UpdateConsistentHashRing();
      if Inv(hash, before) {
        StepKeeps(hash, before, Discovery(beats, active));
      }
    }

    /** One turn of the health loop: flags only ever go from healthy to unhealthy here. */
    method HealthCheckRound(now: int)
      modifies this`nodes
      ensures Contents() == Step(hash, old(Contents()), HealthCheck(now))
      ensures |nodes| == |old(nodes)| && ring == old(ring)
      ensures forall i | 0 <= i < |nodes| :: var was := old(nodes)[i];
        nodes[i] == was.(healthy := was.healthy && now - was.lastHeartbeat <= 30 && Points(was) <= 7)
      ensures old(Base(hash, Contents())) ==> Base(hash, Contents())
      ensures old(Valid()) ==> Valid()
    {
      hide Examine, Base, Points, HealthScore;
      ghost var before := Contents();
      if Base(hash, before) {
        BaseKeeps(hash, before, HealthCheck(now));
      }
      for i := 0 to |nodes|
        invariant |nodes| == |before.nodes|
        invariant forall j | 0 <= j < i :: nodes[j] == Examine(before.nodes[j], now)
        invariant forall j | i <= j < |nodes| :: nodes[j] == before.nodes[j]
      {
        ExamineIs(nodes[i], now);
        var worker := nodes[i];
        if now - worker.lastHeartbeat > 30 {
          worker := worker.(healthy := false);
        }
        if HealthScore(worker) < 0.3 {
          worker := worker.(healthy := false);
        }
        nodes := nodes[i := worker];
      }
      assert nodes == ExamineAll(before.nodes, now);
      forall i | 0 <= i < |nodes|
        ensures var was := before.nodes[i];
          nodes[i] == was.(healthy := was.healthy && now - was.lastHeartbeat <= 30 && Points(was) <= 7)
      {
        CheckMeans(before.nodes[i], now);
      }
      if Inv(hash, before) {
        StepKeeps(hash, before, HealthCheck(now));
      }
    }

    /** select_worker: nobody when no worker is healthy; otherwise a healthy worker by turn or by
        weight, or the worker the ring names, which is a current member healthy at the last rebuild. The
        hash strategy needs a ring to look in; RingReady says when there is one. */
    method SelectWorker(strategy: Strategy, task: string) returns (c: Choice)
      requires Base(hash, Contents())
      requires strategy.ConsistentHash? && HealthyIds(nodes) != [] ==> ring != map[]
      modifies this`counter
      ensures c.NoWorker? <==> HealthyIds(nodes) == []
      ensures c.Worker? && strategy.PlainRoundRobin? ==>
        counter == old(counter) + 1 && c.id == HealthyIds(nodes)[old(counter) % |HealthyIds(nodes)|]
      ensures c.Worker? && strategy.WeightedRoundRobin? ==>
        var weights := Weights(Healthy(nodes));
        && counter == old(counter) + 1 && Positive(weights) && Prefix(weights, |weights|) > 0
        && exists k: nat | k < |HealthyIds(nodes)| ::
             InSlot(weights, Residue(old(counter), Prefix(weights, |weights|)), k) && c.id == HealthyIds(nodes)[k]
      ensures c.Worker? && strategy.ConsistentHash? ==>
        counter == old(counter) && rebuilt != [] && c.id == Owner(hash, rebuilt, task)
        && c.id in Ids(nodes) && c.id in rebuilt
    {
      hide RingOf, InSlot, Prefix, Residue;
      HealthyHasIds(nodes);
      var healthy: seq<Node> := [];
      for i := 0 to |nodes|
        invariant healthy == Healthy(nodes[..i])
      {
        assert nodes[..i + 1][..i] == nodes[..i];
        if nodes[i].healthy {
          healthy := healthy + [nodes[i]];
        }
      }
      assert nodes[..|nodes|] == nodes;
      if healthy == [] {
        return NoWorker;
      }
      match strategy
      case PlainRoundRobin =>
        c := Worker(healthy[counter % |healthy|].id);
        counter := counter + 1;
      case WeightedRoundRobin =>
        var k, next := SelectWeighted(Weights(healthy), counter);
        assert InSlot(Weights(healthy), Residue(counter, Prefix(Weights(healthy), |healthy|)), k);
        SlotInRange(Weights(healthy), Residue(counter, Prefix(Weights(healthy), |healthy|)), k);
        c := Worker(healthy[k].id);
        counter := next;
      case ConsistentHash =>
        RingAnswers(hash, Contents(), task);
        var p := LowerBoundWrap(ring.Keys, Hash32(hash, task));
        LookupUnique(ring.Keys, Hash32(hash, task), p, Lookup(ring, Hash32(hash, task)));
        c := Worker(ring[p]);
    }
  }

  lemma SlotInRange(weights: seq<int>, r: int, k: nat)
    requires InSlot(weights, r, k)
    ensures k < |weights|
  {}

  /** Unless a round has thrown, the ring is ready whenever some worker is healthy. */
  lemma RingReady(hash: Hash, s: State)
    requires Inv(hash, s) && HealthyIds(s.nodes) != []
    ensures s.ring != map[]
  {
    hide RingOf;
    var at: seq<nat> :| Embeds(HealthyIds(s.nodes), s.rebuilt, at);
    assert at[0] < |s.rebuilt|;
    RingPoints(hash, s.rebuilt);
  }

  lemma RingAnswers(hash: Hash, s: State, task: string)
    requires Base(hash, s) && s.ring != map[]
    ensures s.rebuilt != []
    ensures s.ring[Lookup(s.ring, Hash32(hash, task))] == Owner(hash, s.rebuilt, task)
    ensures Owner(hash, s.rebuilt, task) in s.rebuilt && Owner(hash, s.rebuilt, task) in Ids(s.nodes)
  {
    hide RingOf;
    RingPoints(hash, s.rebuilt);
    var p := OwnerIsNearest(hash, s.rebuilt, task);
  }

  lemma {:induction false} FindIs(nodes: seq<Node>, id: Id, i: nat)
    requires i <= |nodes| && (forall j | 0 <= j < i :: nodes[j].id != id) && (i < |nodes| ==> nodes[i].id == id)
    ensures Find(nodes, id) == i
  {
    var f := Find(nodes, id);
    assert f < |nodes| ==> nodes[f].id == id;
    assert i < |nodes| ==> nodes[i].id == id;
  }

  lemma InsertNone(hash: Hash, ring: map<nat, Id>, id: Id)
    ensures Insert(hash, ring, id, 0) == ring
  {}

  lemma InsertOne(hash: Hash, ring: map<nat, Id>, id: Id, k: nat)
    ensures Insert(hash, ring, id, k + 1) == Insert(hash, ring, id, k)[Point(hash, id, k) := id]
  {}

  lemma ExamineIs(n: Node, now: int)
    ensures Examine(n, now) ==
      if now - n.lastHeartbeat > 30 || HealthScore(n) < 0.3 then n.(healthy := false) else n
    ensures HealthScore(n.(healthy := false)) == HealthScore(n)
  {}
}
