/** The client's table of schedulers: marked by each listing, swept between listings, and walked by a
    round-robin index. The walk order of the hash map is any order, the same while the table is. */
module SchedulerTable {

  type Id = string

  datatype Info = Info(ip: string, port: int, updated: bool)

  type Table = map<Id, Info>

  // ---- mark and sweep -------------------------------------------------------------------------

  datatype Event = Refresh(id: Id, ip: string, port: int) | Sweep

  function Swept(t: Table): Table
  {
    map id | id in t && t[id].updated :: t[id].(updated := false)
  }

  function Apply(t: Table, e: Event): Table
  {
    match e
    case Refresh(id, ip, port) => t[id := Info(ip, port, true)]
    case Sweep => Swept(t)
  }

  function Run(events: seq<Event>): Table
  {
    if events == [] then map[] else Apply(Run(events[..|events| - 1]), events[|events| - 1])
  }

  /** The ids refreshed since the last sweep. */
  function ThisRound(events: seq<Event>): set<Id>
  {
    if events == [] || events[|events| - 1].Sweep? then {}
    else ThisRound(events[..|events| - 1]) + {events[|events| - 1].id}
  }

  /** The ids refreshed in the round the last sweep closed. */
  function LastRound(events: seq<Event>): set<Id>
  {
    if events == [] then {}
    else if events[|events| - 1].Sweep? then ThisRound(events[..|events| - 1])
    else LastRound(events[..|events| - 1])
  }

  /** The table holds exactly the schedulers of the open and the last closed round, and the marked
      ones are those of the open round. */
  lemma {:induction false} TableMeans(events: seq<Event>)
    ensures Run(events).Keys == ThisRound(events) + LastRound(events)
    ensures forall id | id in Run(events) :: Run(events)[id].updated <==> id in ThisRound(events)
  {
    if events != [] {
      var front, last := events[..|events| - 1], events[|events| - 1];
      TableMeans(front);
      var t, t' := Run(front), Run(events);
      if last.Sweep? {
        forall id ensures id in t' <==> id in ThisRound(front) {
          assert id in t' <==> id in t && t[id].updated;
        }
      } else {
        assert t'.Keys == t.Keys + {last.id};
      }
    }
  }

  /** After a sweep the keys are exactly the ids refreshed in the round it closed, all unmarked. */
  lemma SweepLeavesRound(events: seq<Event>)
    ensures var t := Run(events + [Sweep]);
      t == Swept(Run(events)) && t.Keys == ThisRound(events) && forall id | id in t :: !t[id].updated
  {
    assert (events + [Sweep])[..|events|] == events;
    TableMeans(events + [Sweep]);
  }

  predicate Handled(before: Table, after: Table, id: Id)
    requires id in before
  {
    if before[id].updated then id in after && after[id] == before[id].(updated := false) else id !in after
  }

  lemma SweptMeans(before: Table, after: Table)
    requires forall id | id in before :: Handled(before, after, id)
    requires after.Keys <= before.Keys
    ensures after == Swept(before)
  {}

  /** Event j is the last to list this scheduler. */
  ghost predicate LastListed(events: seq<Event>, id: Id, j: nat)
  {
    && j < |events| && events[j].Refresh? && events[j].id == id
    && forall m | j < m < |events| && events[m].Refresh? :: events[m].id != id
  }

  /** An entry holds the address of the last listing of its id, through any number of sweeps. */
  lemma {:induction false} EntryIsLastListed(events: seq<Event>, id: Id) returns (j: nat)
    requires id in Run(events)
    ensures LastListed(events, id, j)
    ensures Run(events)[id].ip == events[j].ip && Run(events)[id].port == events[j].port
  {
    var n := |events| - 1;
    var front, last := events[..n], events[n];
    if last.Refresh? && last.id == id {
      j := n;
    } else {
      j := EntryIsLastListed(front, id);
      assert events[j] == front[j];
      forall m | j < m < |events| && events[m].Refresh? ensures events[m].id != id {
        if m < n {
          assert events[m] == front[m];
        }
      }
    }
  }

  /** A scheduler missing from the round that `events` closes, and not refreshed later, is in no later
      table, so it is never picked again. */
  lemma {:induction false} VanishedStaysOut(events: seq<Event>, later: seq<Event>, id: Id)
    requires id !in ThisRound(events)
    requires forall i | 0 <= i < |later| && later[i].Refresh? :: later[i].id != id
    ensures id !in Run(events + [Sweep] + later)
  {
    if later == [] {
      SweepLeavesRound(events);
      assert events + [Sweep] + later == events + [Sweep];
    } else {
      var n := |later| - 1;
      VanishedStaysOut(events, later[..n], id);
      assert (events + [Sweep] + later)[..|events| + 1 + n] == events + [Sweep] + later[..n];
    }
  }

  // ---- round robin --------------------------------------------------------------------------------

  function NextIndex(index: nat, n: nat): nat
    requires n > 0
  {
    (index + 1) % n
  }

  /** The index after k picks on a table of n entries. */
  function IndexAfter(index: nat, n: nat, k: nat): nat
    requires n > 0
  {
    if k == 0 then index else NextIndex(IndexAfter(index, n, k - 1), n)
  }

  lemma NextInRange(index: nat, n: nat)
    requires n > 0
    ensures NextIndex(index, n) < n
    ensures index < n ==> NextIndex(index, n) == if index + 1 == n then 0 else index + 1
  {}

  /** From the first pick on, the walk goes up by one and wraps at the end. */
  lemma {:induction false} WalkWraps(index: nat, n: nat, k: nat)
    requires n > 0 && 1 <= k <= n
    ensures var first := NextIndex(index, n);
      first < n && IndexAfter(index, n, k) == if first + k - 1 < n then first + k - 1 else first + k - 1 - n
  {
    hide NextIndex;
    if k == 1 {
      assert IndexAfter(index, n, 0) == index;
      NextInRange(index, n);
    } else {
      WalkWraps(index, n, k - 1);
      NextInRange(IndexAfter(index, n, k - 1), n);
    }
  }

  /** n consecutive picks on a table of n entries visit each entry exactly once, whatever the index was
      before, even beyond the end because the table shrank. */
  lemma EachVisitedOnce(index: nat, n: nat, j: nat)
    requires j < n
    ensures exists k | 1 <= k <= n :: IndexAfter(index, n, k) == j
    ensures forall k, m | 1 <= k <= n && 1 <= m <= n && IndexAfter(index, n, k) == j && IndexAfter(index, n, m) == j :: k == m
  {
    var first := NextIndex(index, n);
    NextInRange(index, n);
    var k := if j >= first then j - first + 1 else j - first + 1 + n;
    WalkWraps(index, n, k);
    forall k, m | 1 <= k <= n && 1 <= m <= n && IndexAfter(index, n, k) == j && IndexAfter(index, n, m) == j
      ensures k == m
    {
      WalkWraps(index, n, k);
      WalkWraps(index, n, m);
    }
  }

  // ---- the client's fields ------------------------------------------------------------------------

  datatype Pick = NoScheduler | Host(ip: string, port: int)

  ghost predicate Walks(order: seq<Id>, t: Table)
  {
    && (forall id :: id in order <==> id in t)
    && forall i, j | 0 <= i < j < |order| :: order[i] != order[j]
  }

  lemma {:induction false} WalkLength(order: seq<Id>, t: Table)
    requires Walks(order, t)
    ensures |order| == |t|
  {
    if order == [] {
      assert t.Keys == {};
    } else {
      var n := |order| - 1;
      var rest := t - {order[n]};
      forall id ensures id in order[..n] <==> id in rest {}
      WalkLength(order[..n], rest);
      assert t.Keys == rest.Keys + {order[n]};
    }
  }

  /** The entries k consecutive picks stop at. */
  function Visited(order: seq<Id>, index: nat, k: nat): (ids: seq<Id>)
    requires order != []
    ensures |ids| == k && forall j | 0 <= j < k :: ids[j] in order
  {
    if k == 0 then []
    else
      NextInRange(IndexAfter(index, |order|, k - 1), |order|);
      Visited(order, index, k - 1) + [order[IndexAfter(index, |order|, k)]]
  }

  lemma {:induction false} VisitedAt(order: seq<Id>, index: nat, k: nat, j: nat)
    requires order != [] && j < k
    ensures IndexAfter(index, |order|, j + 1) < |order|
    ensures Visited(order, index, k)[j] == order[IndexAfter(index, |order|, j + 1)]
  {
    hide NextIndex;
    NextInRange(IndexAfter(index, |order|, k - 1), |order|);
    if j < k - 1 {
      VisitedAt(order, index, k - 1, j);
    }
  }

  /** The walk order started at another entry. */
  function Rotated(order: seq<Id>, first: nat): (ids: seq<Id>)
    requires first < |order|
    ensures |ids| == |order|
  {
    order[first..] + order[..first]
  }

  lemma RotatedAt(order: seq<Id>, first: nat, j: nat, at: nat)
    requires first < |order| && j < |order|
    requires at == if first + j < |order| then first + j else first + j - |order|
    ensures Rotated(order, first)[j] == order[at]
  {}

  lemma RotatedSame(order: seq<Id>, first: nat)
    requires first < |order|
    ensures multiset(Rotated(order, first)) == multiset(order)
  {
    assert order == order[..first] + order[first..];
  }

  lemma TurnAt(order: seq<Id>, index: nat, j: nat)
    requires j < |order|
    ensures NextIndex(index, |order|) < |order|
    ensures Visited(order, index, |order|)[j] == Rotated(order, NextIndex(index, |order|))[j]
  {
    hide NextIndex, IndexAfter, Visited, Rotated;
    WalkWraps(index, |order|, j + 1);
    var first, at := NextIndex(index, |order|), IndexAfter(index, |order|, j + 1);
    VisitedAt(order, index, |order|, j);
    RotatedAt(order, first, j, at);
  }

  /** A full turn is the walk order rotated: it stops at every entry exactly once. */
  lemma TurnVisitsEach(order: seq<Id>, index: nat)
    requires order != []
    ensures NextIndex(index, |order|) < |order|
    ensures Visited(order, index, |order|) == Rotated(order, NextIndex(index, |order|))
    ensures multiset(Visited(order, index, |order|)) == multiset(order)
  {
    hide NextIndex, IndexAfter, Visited, Rotated;
    var n := |order|;
    NextInRange(index, n);
    var first := NextIndex(index, n);
    forall j | 0 <= j < n ensures Visited(order, index, n)[j] == Rotated(order, first)[j] {
      TurnAt(order, index, j);
    }
    assert Visited(order, index, n) == Rotated(order, first);
    RotatedSame(order, first);
  }

  /** The address a listing gives. */
  function HostListed(e: Event): Pick
  {
    match e
    case Refresh(_, ip, port) => Host(ip, port)
    case Sweep => NoScheduler
  }

  /** What a pick that stops at this entry answers. */
  function HostOf(t: Table, id: Id): Pick
    requires id in t
  {
    Host(t[id].ip, t[id].port)
  }

  /** Pick number j, counted from zero, answers the entry the walk has reached. */
  ghost predicate Answers(t: Table, order: seq<Id>, index: nat, j: nat, p: Pick)
    requires order != []
  {
    && IndexAfter(index, |order|, j + 1) < |order|
    && var id := order[IndexAfter(index, |order|, j + 1)]; id in t && p == HostOf(t, id)
  }

  class Client {
    var table: Table
    var roundRobinIndex: nat
    ghost var history: seq<Event>

    ghost predicate Valid()
      reads this
    {
      table == Run(history)
    }

    constructor ()
      ensures Valid() && table == map[] && roundRobinIndex == 0 && history == []
    {
      table, roundRobinIndex, history := map[], 0, [];
    }

    /** One listed scheduler: its entry is written and marked. */
    method RefreshScheduler(id: Id, ip: string, port: int)
      requires Valid()
      modifies this`table, this`history
      ensures Valid() && history == old(history) + [Refresh(id, ip, port)]
    {
      table := table[id := Info(ip, port, true)];
      assert (history + [Refresh(id, ip, port)])[..|history|] == history;
      history := history + [Refresh(id, ip, port)];
    }

    /** The sweep loop: erase the unmarked, unmark the rest, in the map's own order. */
    method SweepTable(order: seq<Id>)
      requires Valid() && Walks(order, table)
      modifies this`table, this`history
      ensures Valid() && history == old(history) + [Sweep]
      ensures table.Keys == ThisRound(old(history)) && forall id | id in table :: !table[id].updated
    {
      hide Run, ThisRound, Swept;
      ghost var before := table;
      for i := 0 to |order|
        invariant forall j | i <= j < |order| :: order[j] in table && table[order[j]] == before[order[j]]
        invariant forall j | 0 <= j < i :: Handled(before, table, order[j])
        invariant table.Keys <= before.Keys
        modifies this`table
      {
        var id := order[i];
        if !table[id].updated {
          table := table - {id};
        } else {
          table := table[id := table[id].(updated := false)];
        }
      }
      SweptMeans(before, table);
      SweepLeavesRound(history);
      history := history + [Sweep];
    }

    /** round_robin_load_balance: an error on an empty table, else the entry at the advanced index. */
    method RoundRobinPick(order: seq<Id>) returns (p: Pick)
      requires Walks(order, table)
      modifies this`roundRobinIndex
      ensures p.NoScheduler? <==> table == map[]
      ensures p.NoScheduler? ==> roundRobinIndex == old(roundRobinIndex)
      ensures p.Host? ==>
        && |order| == |table| && roundRobinIndex == NextIndex(old(roundRobinIndex), |order|) < |order|
        && p == HostOf(table, order[roundRobinIndex])
        && (Valid() ==> exists j: nat :: LastListed(history, order[roundRobinIndex], j) && p == HostListed(history[j]))
    {
      WalkLength(order, table);
      if table == map[] {
        return NoScheduler;
      }
      NextInRange(roundRobinIndex, |table|);
      roundRobinIndex := NextIndex(roundRobinIndex, |table|);
      assert order[roundRobinIndex] in order;
      var info := table[order[roundRobinIndex]];
      p := Host(info.ip, info.port);
      if Valid() {
        ghost var j := EntryIsLastListed(history, order[roundRobinIndex]);
        assert p == HostListed(history[j]);
      }
    }

    /** One pick of the submit loop, which picks again while the answer has no ip: the answer is the first
        entry with an ip that the walk comes to. */
    method PickUsable(order: seq<Id>) returns (p: Pick)
      requires Walks(order, table) && (table == map[] || Usable(table))
      modifies this`roundRobinIndex
      ensures p.NoScheduler? <==> table == map[]
      ensures p.NoScheduler? ==> roundRobinIndex == old(roundRobinIndex)
      ensures p.Host? ==> order != [] && exists k: nat :: Lands(table, order, old(roundRobinIndex), k, roundRobinIndex, p)
    {
      hide NextIndex, EmptyAt, Usable;
      ghost var start := roundRobinIndex;
      p := RoundRobinPick(order);
      if p.NoScheduler? {
        return;
      }
      ghost var last := RetryEnds(table, order, start);
      ghost var k: nat := 1;
      assert IndexAfter(start, |order|, 0) == start;
      while p.ip == ""
        invariant 1 <= k && p.Host? && roundRobinIndex == IndexAfter(start, |order|, k) < |order|
        invariant p == HostOf(table, order[roundRobinIndex])
        invariant forall m: nat | 1 <= m < k :: EmptyAt(table, order, start, m)
        invariant k <= last
        modifies this`roundRobinIndex
        decreases last - k
      {
        EmptyHere(table, order, start, k);
        p := RoundRobinPick(order);
        k := k + 1;
      }
      UsableHere(table, order, start, k);
      assert Lands(table, order, start, k, roundRobinIndex, p);
    }

    /** The submit loop picks for each task. While the table stands still and every entry has an ip, the
        picks answer the entries of `Visited`, so every |order| of them in a row answer each entry once. */
    method PickForEach(order: seq<Id>, tasks: nat) returns (picks: seq<Pick>)
      requires Walks(order, table) && (table == map[] || Usable(table))
      modifies this`roundRobinIndex
      ensures |picks| == tasks
      ensures table == map[] ==> forall j | 0 <= j < tasks :: picks[j].NoScheduler?
      ensures forall j | 0 <= j < tasks && picks[j].Host? :: picks[j].ip != ""
      ensures table != map[] && AllUsable(table) ==>
        && order != [] && roundRobinIndex == IndexAfter(old(roundRobinIndex), |order|, tasks)
        && forall j | 0 <= j < tasks :: picks[j] == HostOf(table, Visited(order, old(roundRobinIndex), tasks)[j])
    {
      hide NextIndex, Visited, Usable, IndexAfter;
      picks := [];
      WalkLength(order, table);
      ghost var start := roundRobinIndex;
      if order != [] {
        NoPickYet(start, |order|);
      }
      for i := 0 to tasks
        invariant |picks| == i
        invariant table == map[] ==> forall j | 0 <= j < i :: picks[j].NoScheduler?
        invariant forall j | 0 <= j < i && picks[j].Host? :: picks[j].ip != ""
        invariant table != map[] && AllUsable(table) ==> order != [] && roundRobinIndex == IndexAfter(start, |order|, i)
        invariant table != map[] && AllUsable(table) ==>
          forall j | 0 <= j < i :: Answers(table, order, start, j, picks[j])
        modifies this`roundRobinIndex
      {
        ghost var before := roundRobinIndex;
        var p := PickUsable(order);
        if p.Host? {
          ghost var k: nat :| Lands(table, order, before, k, roundRobinIndex, p);
          FirstHasIp(table, order, before, k);
          if AllUsable(table) {
            OneStep(table, order, before, k);
            IndexOneMore(start, |order|, i);
          }
        }
        picks := picks + [p];
      }
      if table != map[] && AllUsable(table) {
        forall j | 0 <= j < tasks
          ensures picks[j] == HostOf(table, Visited(order, start, tasks)[j])
        {
          assert Answers(table, order, start, j, picks[j]);
          VisitedAt(order, start, tasks, j);
        }
      }
    }
  }

  lemma NoPickYet(index: nat, n: nat)
    requires n > 0
    ensures IndexAfter(index, n, 0) == index
  {}

  lemma IndexOneMore(index: nat, n: nat, k: nat)
    requires n > 0
    ensures IndexAfter(index, n, k + 1) == IndexAfter(IndexAfter(index, n, k), n, 1)
  {
    assert IndexAfter(IndexAfter(index, n, k), n, 0) == IndexAfter(index, n, k);
  }

  // ---- the retry loop -----------------------------------------------------------------------------

  ghost predicate Usable(t: Table)
  {
    exists id | id in t :: t[id].ip != ""
  }

  ghost predicate AllUsable(t: Table)
  {
    forall id | id in t :: t[id].ip != ""
  }

  /** Pick number m stops at an entry without an ip. */
  ghost predicate EmptyAt(t: Table, order: seq<Id>, index: nat, m: nat)
    requires order != []
  {
    && IndexAfter(index, |order|, m) < |order|
    && var id := order[IndexAfter(index, |order|, m)]; id in t && t[id].ip == ""
  }

  /** Pick number k is the first to stop at an entry with an ip. */
  ghost predicate FirstUsable(t: Table, order: seq<Id>, index: nat, k: nat)
    requires order != []
  {
    && k >= 1 && IndexAfter(index, |order|, k) < |order|
    && (var id := order[IndexAfter(index, |order|, k)]; id in t && t[id].ip != "")
    && forall m: nat | 1 <= m < k :: EmptyAt(t, order, index, m)
  }

  /** Pick number k is that one, and leaves the index there. */
  ghost predicate Lands(t: Table, order: seq<Id>, index: nat, k: nat, now: nat, p: Pick)
    requires order != []
  {
    FirstUsable(t, order, index, k) && now == IndexAfter(index, |order|, k) && p == HostOf(t, order[now])
  }

  lemma EmptyHere(t: Table, order: seq<Id>, index: nat, k: nat)
    requires Walks(order, t) && order != [] && IndexAfter(index, |order|, k) < |order|
    requires t[order[IndexAfter(index, |order|, k)]].ip == ""
    ensures EmptyAt(t, order, index, k)
  {}

  lemma UsableHere(t: Table, order: seq<Id>, index: nat, k: nat)
    requires Walks(order, t) && order != [] && k >= 1 && IndexAfter(index, |order|, k) < |order|
    requires t[order[IndexAfter(index, |order|, k)]].ip != ""
    requires forall m: nat | 1 <= m < k :: EmptyAt(t, order, index, m)
    ensures FirstUsable(t, order, index, k)
  {}

  lemma FirstHasIp(t: Table, order: seq<Id>, index: nat, k: nat)
    requires order != [] && FirstUsable(t, order, index, k)
    ensures IndexAfter(index, |order|, k) < |order| && order[IndexAfter(index, |order|, k)] in t
    ensures t[order[IndexAfter(index, |order|, k)]].ip != ""
  {}

  /** Where every entry has an ip the first pick is the last. */
  lemma OneStep(t: Table, order: seq<Id>, index: nat, k: nat)
    requires order != [] && AllUsable(t) && FirstUsable(t, order, index, k)
    ensures k == 1
  {
    assert k > 1 ==> EmptyAt(t, order, index, 1);
  }

  /** A walk over a table with a usable entry comes to one within a turn. */
  lemma RetryEnds(t: Table, order: seq<Id>, index: nat) returns (last: nat)
    requires Walks(order, t) && order != [] && Usable(t)
    ensures 1 <= last <= |order| && !EmptyAt(t, order, index, last)
  {
    hide IndexAfter;
    var id :| id in t && t[id].ip != "";
    var j :| 0 <= j < |order| && order[j] == id;
    EachVisitedOnce(index, |order|, j);
    last :| 1 <= last <= |order| && IndexAfter(index, |order|, last) == j;
  }

  lemma {:induction false} FindFirst(t: Table, order: seq<Id>, index: nat, k: nat, last: nat) returns (first: nat)
    requires Walks(order, t) && order != [] && 1 <= k <= last && !EmptyAt(t, order, index, last)
    requires forall m: nat | 1 <= m < k :: EmptyAt(t, order, index, m)
    ensures FirstUsable(t, order, index, first)
    decreases last - k
  {
    hide NextIndex, EmptyAt;
    NextInRange(IndexAfter(index, |order|, k - 1), |order|);
    var id := order[IndexAfter(index, |order|, k)];
    assert id in order;
    if t[id].ip == "" {
      EmptyHere(t, order, index, k);
      first := FindFirst(t, order, index, k + 1, last);
    } else {
      first := k;
    }
  }

  /** Picking again while the ip is empty comes to an end exactly when some entry has an ip. */
  lemma RetryEndsExactly(t: Table, order: seq<Id>, index: nat)
    requires Walks(order, t) && order != []
    ensures (exists k: nat :: FirstUsable(t, order, index, k)) <==> Usable(t)
  {
    hide IndexAfter;
    if Usable(t) {
      var last := RetryEnds(t, order, index);
      var first := FindFirst(t, order, index, 1, last);
    }
  }

  /** The entry a heartbeat without fields leaves: alone in the table, it keeps the submit loop picking. */
  lemma BlankEntryNeverEnds(index: nat)
    ensures var t: Table := map["" := Info("", 0, true)];
      Walks([""], t) && forall k: nat :: !FirstUsable(t, [""], index, k)
  {
    var t: Table := map["" := Info("", 0, true)];
    var order := [""];
    assert Walks(order, t);
    RetryEndsExactly(t, order, index);
  }
}
