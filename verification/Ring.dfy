/** The consistent-hash ring: how it is rebuilt, what a lookup answers, and that a task moves only
    when it must. The hash is any function from strings to numbers, cut to 32 bits. */
module Ring {

  type Id = string
  type Hash = string -> nat

  const POW32 := 0x1_0000_0000
  const VIRTUAL_NODES := 150

  /** Decimal digits, as std::to_string writes them. */
  function Decimal(n: nat): string
  {
    if n < 10 then ["0123456789"[n]] else Decimal(n / 10) + ["0123456789"[n % 10]]
  }

  predicate Digit(c: char) { '0' <= c <= '9' }

  function ReadDecimal(s: string): int
  {
    if s == "" then 0 else 10 * ReadDecimal(s[..|s| - 1]) + (s[|s| - 1] as int - '0' as int)
  }

  /** The digits are those of the number, without leading zeros. */
  lemma {:induction false} DecimalReads(n: nat)
    ensures ReadDecimal(Decimal(n)) == n && Decimal(n) != "" && (n > 0 ==> Decimal(n)[0] != '0')
    ensures forall i | 0 <= i < |Decimal(n)| :: Digit(Decimal(n)[i])
  {
    var last := "0123456789"[n % 10];
    assert last as int - '0' as int == n % 10 && Digit(last);
    if n < 10 {
      assert Decimal(n) == [last] && [last][..0] == "";
    } else {
      DecimalReads(n / 10);
      assert Decimal(n)[..|Decimal(n)| - 1] == Decimal(n / 10);
    }
  }

  /** The name of the i-th virtual node of a worker. */
  function VirtualNode(id: Id, i: nat): string
  {
    id + "#" + Decimal(i)
  }

  /** Different virtual nodes have different names: of one worker always, of two workers if their ids have
      no number sign. */
  lemma VirtualNodesDiffer(id: Id, i: nat, other: Id, j: nat)
    requires id == other || ('#' !in id && '#' !in other)
    ensures VirtualNode(id, i) == VirtualNode(other, j) <==> id == other && i == j
  {
    DecimalReads(i);
    DecimalReads(j);
    if VirtualNode(id, i) == VirtualNode(other, j) {
      var a, b := VirtualNode(id, i), VirtualNode(other, j);
      assert a[|id|] == '#' && b[|other|] == '#';
      assert |id| == |other|;
      assert a[..|id|] == id && b[..|other|] == other;
      assert a[|id| + 1..] == Decimal(i) && b[|other| + 1..] == Decimal(j);
    }
  }

  function Hash32(hash: Hash, s: string): nat
  {
    hash(s) % POW32
  }

  /** Thirty-two bits of a wider hash are the hash modulo 2^32. */
  lemma Hash32Means(hash: Hash, s: string)
    ensures 0 <= Hash32(hash, s) < 0x1_0000_0000 && (hash(s) - Hash32(hash, s)) % 0x1_0000_0000 == 0
  {}

  /** Where the i-th virtual node of a worker stands. */
  function Point(hash: Hash, id: Id, i: nat): nat
  {
    Hash32(hash, VirtualNode(id, i))
  }

  /** The inner insertion loop: points 0 to k - 1 of one worker, a later insertion overwriting. */
  function Insert(hash: Hash, ring: map<nat, Id>, id: Id, k: nat): map<nat, Id>
  {
    if k == 0 then ring else Insert(hash, ring, id, k - 1)[Point(hash, id, k - 1) := id]
  }

  /** The outer loop over the healthy workers, in list order. */
  function RingOf(hash: Hash, ids: seq<Id>): map<nat, Id>
  {
    if ids == [] then map[]
    else Insert(hash, RingOf(hash, ids[..|ids| - 1]), ids[|ids| - 1], VIRTUAL_NODES)
  }

  // ---- what the loops build -------------------------------------------------------------------

  ghost predicate OwnsBelow(hash: Hash, id: Id, p: nat, k: nat)
  {
    exists i: nat | i < k :: Point(hash, id, i) == p
  }

  /** One of the worker's virtual nodes hashes to this point. */
  ghost predicate Owns(hash: Hash, id: Id, p: nat)
  {
    OwnsBelow(hash, id, p, VIRTUAL_NODES)
  }

  lemma {:induction false} InsertMeans(hash: Hash, ring: map<nat, Id>, id: Id, k: nat, p: nat)
    ensures var after := Insert(hash, ring, id, k);
      && (p in after <==> p in ring || OwnsBelow(hash, id, p, k))
      && (p in after ==> after[p] == if OwnsBelow(hash, id, p, k) then id else ring[p])
  {
    if k > 0 {
      InsertMeans(hash, ring, id, k - 1, p);
      if OwnsBelow(hash, id, p, k) && Point(hash, id, k - 1) != p {
        var i: nat :| i < k && Point(hash, id, i) == p;
        assert i < k - 1;
      }
    }
  }

  /** Position j is the last in the list whose worker owns p. */
  ghost predicate LastOwner(hash: Hash, ids: seq<Id>, p: nat, j: int)
  {
    && 0 <= j < |ids| && Owns(hash, ids[j], p)
    && forall i | j < i < |ids| :: !Owns(hash, ids[i], p)
  }

  /** The ring holds exactly the points some listed worker owns; where virtual nodes collide the
      worker listed last has the point. */
  lemma {:induction false} RingMeans(hash: Hash, ids: seq<Id>, p: nat)
    ensures p in RingOf(hash, ids) <==> exists j :: LastOwner(hash, ids, p, j)
    ensures forall j :: LastOwner(hash, ids, p, j) ==> p in RingOf(hash, ids) && RingOf(hash, ids)[p] == ids[j]
  {
    hide Insert, Owns;
    if ids != [] {
      var n := |ids| - 1;
      var front := ids[..n];
      RingMeans(hash, front, p);
      InsertOwns(hash, RingOf(hash, front), ids[n], p);
      if Owns(hash, ids[n], p) {
        assert LastOwner(hash, ids, p, n);
      } else {
        forall j ensures LastOwner(hash, ids, p, j) <==> LastOwner(hash, front, p, j) {}
      }
    }
  }

  lemma InsertOwns(hash: Hash, ring: map<nat, Id>, id: Id, p: nat)
    ensures var after := Insert(hash, ring, id, VIRTUAL_NODES);
      && (p in after <==> p in ring || Owns(hash, id, p))
      && (p in after ==> after[p] == if Owns(hash, id, p) then id else ring[p])
  {
    InsertMeans(hash, ring, id, VIRTUAL_NODES, p);
  }

  lemma {:induction false} FindLastOwner(hash: Hash, ids: seq<Id>, p: nat, k: nat) returns (j: nat)
    requires k < |ids| && Owns(hash, ids[k], p)
    ensures LastOwner(hash, ids, p, j)
    decreases |ids| - k
  {
    hide Owns;
    if i: nat :| k < i < |ids| && Owns(hash, ids[i], p) {
      j := FindLastOwner(hash, ids, p, i);
    } else {
      j := k;
    }
  }

  /** Every point of the ring is a 32-bit value owned by a listed worker. */
  lemma RingPoints(hash: Hash, ids: seq<Id>)
    ensures forall p | p in RingOf(hash, ids) :: p < POW32 && RingOf(hash, ids)[p] in ids
    ensures RingOf(hash, ids) != map[] <==> ids != []
  {
    forall p | p in RingOf(hash, ids) ensures p < POW32 && RingOf(hash, ids)[p] in ids {
      RingMeans(hash, ids, p);
      var j :| LastOwner(hash, ids, p, j);
      var i: nat :| i < VIRTUAL_NODES && Point(hash, ids[j], i) == p;
    }
    if ids != [] {
      var p := Point(hash, ids[0], 0);
      assert Owns(hash, ids[0], p);
      var j := FindLastOwner(hash, ids, p, 0);
      RingMeans(hash, ids, p);
    }
  }

  /** All hundred and fifty virtual nodes of every listed worker stand on the ring. */
  lemma AllNodesStand(hash: Hash, ids: seq<Id>, k: nat, i: nat)
    requires k < |ids| && i < 150
    ensures Hash32(hash, VirtualNode(ids[k], i)) in RingOf(hash, ids)
  {
    hide RingOf;
    var p := Point(hash, ids[k], i);
    assert Owns(hash, ids[k], p);
    var j := FindLastOwner(hash, ids, p, k);
    RingMeans(hash, ids, p);
  }

  // ---- lookup ---------------------------------------------------------------------------------

  /** lower_bound with wrap: the least point not below h, or the least of all. */
  ghost predicate IsLookup(points: set<nat>, h: nat, p: nat)
  {
    && p in points
    && if exists q :: q in points && q >= h
       then p >= h && forall q | q in points && q >= h :: p <= q
       else forall q | q in points :: p <= q
  }

  lemma {:induction false} LeastExists(points: set<nat>) returns (p: nat)
    requires points != {}
    ensures p in points && forall q | q in points :: p <= q
    decreases |points|
  {
    var x :| x in points;
    if points == {x} {
      p := x;
    } else {
      var rest := points - {x};
      var y := LeastExists(rest);
      p := if x < y then x else y;
      forall q | q in points ensures p <= q {
        assert q == x || q in rest;
      }
    }
  }

  lemma LookupExists(points: set<nat>, h: nat) returns (p: nat)
    requires points != {}
    ensures IsLookup(points, h, p)
  {
    var above := set q | q in points && q >= h;
    if above != {} {
      p := LeastExists(above);
      assert p in points && p >= h;
      forall q | q in points && q >= h ensures p <= q { assert q in above; }
    } else {
      p := LeastExists(points);
      forall q | q in points ensures q < h { assert q !in above; }
    }
  }

  /** Clockwise distance from h to p on the 32-bit circle. */
  function Distance(h: nat, p: nat): nat
    requires h < POW32 && p < POW32
  {
    if p >= h then p - h else p + POW32 - h
  }

  lemma DistanceIsModular(h: nat, p: nat)
    requires h < POW32 && p < POW32
    ensures Distance(h, p) == (p - h) % POW32
  {
    if p < h {
      assert (p - h) + POW32 == Distance(h, p);
    }
  }

  /** A lookup answers the point at least clockwise distance from the hash, and only that point. */
  lemma LookupIsNearest(points: set<nat>, h: nat, p: nat)
    requires h < POW32 && p in points && forall q | q in points :: q < POW32
    ensures IsLookup(points, h, p) <==> forall q | q in points :: Distance(h, p) <= Distance(h, q)
  {
    if forall q | q in points :: Distance(h, p) <= Distance(h, q) {
      if q :| q in points && q >= h {
        assert Distance(h, p) <= Distance(h, q);
      }
    }
  }

  lemma LookupUnique(points: set<nat>, h: nat, p: nat, q: nat)
    requires IsLookup(points, h, p) && IsLookup(points, h, q)
    ensures p == q
  {}

  ghost function Lookup(ring: map<nat, Id>, h: nat): (p: nat)
    requires ring != map[]
    ensures IsLookup(ring.Keys, h, p)
  {
    LookupTotal(ring, h);
    var p :| IsLookup(ring.Keys, h, p);
    p
  }

  lemma LookupTotal(ring: map<nat, Id>, h: nat)
    requires ring != map[]
    ensures exists p :: IsLookup(ring.Keys, h, p)
  {
    assert ring.Keys != {};
    var p := LookupExists(ring.Keys, h);
  }

  /** The worker that select_consistent_hash answers for a task id. */
  ghost function Owner(hash: Hash, ids: seq<Id>, task: string): Id
    requires ids != []
  {
    RingPoints(hash, ids);
    var ring := RingOf(hash, ids);
    ring[Lookup(ring, Hash32(hash, task))]
  }

  /** The answer is the listed worker holding the point nearest clockwise to the task's hash. */
  lemma OwnerIsNearest(hash: Hash, ids: seq<Id>, task: string) returns (p: nat)
    requires ids != []
    ensures p in RingOf(hash, ids) && p < POW32 && RingOf(hash, ids)[p] == Owner(hash, ids, task) && Owner(hash, ids, task) in ids
    ensures forall q | q in RingOf(hash, ids) ::
              q < POW32 && Distance(Hash32(hash, task), p) <= Distance(Hash32(hash, task), q)
  {
    RingPoints(hash, ids);
    var ring := RingOf(hash, ids);
    p := Lookup(ring, Hash32(hash, task));
    LookupIsNearest(ring.Keys, Hash32(hash, task), p);
  }

  // ---- stability ------------------------------------------------------------------------------

  ghost predicate Embeds(a: seq<Id>, b: seq<Id>, at: seq<nat>)
  {
    && |at| == |a|
    && (forall i | 0 <= i < |a| :: at[i] < |b| && a[i] == b[at[i]])
    && forall i, j | 0 <= i < j < |at| :: at[i] < at[j]
  }

  /** `a` is `b` with some elements left out, order kept. */
  ghost predicate Subsequence(a: seq<Id>, b: seq<Id>)
  {
    exists at :: Embeds(a, b, at)
  }

  ghost predicate Unique(ids: seq<Id>)
  {
    forall i, j | 0 <= i < j < |ids| :: ids[i] != ids[j]
  }

  lemma UniqueAppend(ids: seq<Id>, x: Id)
    ensures Unique(ids + [x]) <==> Unique(ids) && x !in ids
  {
    if Unique(ids + [x]) {
      forall i, j | 0 <= i < j < |ids| ensures ids[i] != ids[j] {
        assert (ids + [x])[i] != (ids + [x])[j];
      }
      forall k | 0 <= k < |ids| ensures ids[k] != x {
        assert (ids + [x])[k] != (ids + [x])[|ids|];
      }
    }
  }

  lemma EmbedsBoth(a: seq<Id>, b: seq<Id>, at: seq<nat>, x: Id)
    requires Embeds(a, b, at)
    ensures Embeds(a + [x], b + [x], at + [|b|])
  {}

  lemma EmbedsWider(a: seq<Id>, b: seq<Id>, at: seq<nat>, x: Id)
    requires Embeds(a, b, at)
    ensures Embeds(a, b + [x], at)
  {}

  lemma SelfEmbeds(a: seq<Id>)
    ensures Subsequence(a, a)
  {
    assert Embeds(a, a, seq(|a|, i requires 0 <= i < |a| => i));
  }

  lemma SubsequenceTrans(a: seq<Id>, b: seq<Id>, c: seq<Id>)
    requires Subsequence(a, b) && Subsequence(b, c)
    ensures Subsequence(a, c)
  {
    var f: seq<nat> :| Embeds(a, b, f);
    var g: seq<nat> :| Embeds(b, c, g);
    assert Embeds(a, c, seq(|a|, i requires 0 <= i < |a| => g[f[i]]));
  }

  lemma SubsequenceOfUnique(a: seq<Id>, b: seq<Id>)
    requires Subsequence(a, b) && Unique(b)
    ensures Unique(a) && forall id | id in a :: id in b
  {
    var at: seq<nat> :| Embeds(a, b, at);
  }

  /** A worker that has a point in the larger ring and is still listed keeps it in the smaller one. */
  lemma PointStays(hash: Hash, a: seq<Id>, b: seq<Id>, at: seq<nat>, p: nat)
    requires Embeds(a, b, at) && Unique(b) && p in RingOf(hash, b) && RingOf(hash, b)[p] in a
    ensures p in RingOf(hash, a) && RingOf(hash, a)[p] == RingOf(hash, b)[p]
  {
    hide Owns, RingOf;
    RingMeans(hash, b, p);
    var j :| LastOwner(hash, b, p, j);
    var i :| 0 <= i < |a| && a[i] == b[j];
    assert at[i] == j;
    forall k | i < k < |a| ensures !Owns(hash, a[k], p) {
      assert at[k] > j;
    }
    assert LastOwner(hash, a, p, i);
    RingMeans(hash, a, p);
  }

  /** The smaller ring has no point the larger one lacks. */
  lemma PointsShrink(hash: Hash, a: seq<Id>, b: seq<Id>, at: seq<nat>, p: nat)
    requires Embeds(a, b, at) && p in RingOf(hash, a)
    ensures p in RingOf(hash, b)
  {
    hide Owns, RingOf;
    RingMeans(hash, a, p);
    var i :| LastOwner(hash, a, p, i);
    assert Owns(hash, b[at[i]], p);
    var j := FindLastOwner(hash, b, p, at[i]);
    RingMeans(hash, b, p);
  }

  /** Stability: when workers leave the healthy list, a task whose owner stays keeps that owner, even
      where virtual nodes of different workers collide. */
  lemma Stability(hash: Hash, before: seq<Id>, after: seq<Id>, task: string)
    requires Unique(before) && Subsequence(after, before) && after != [] && before != []
    requires Owner(hash, before, task) in after
    ensures Owner(hash, after, task) == Owner(hash, before, task)
  {
    hide RingOf, LastOwner;
    var at :| Embeds(after, before, at);
    var h := Hash32(hash, task);
    RingPoints(hash, before);
    RingPoints(hash, after);
    var big, small := RingOf(hash, before), RingOf(hash, after);
    var p := Lookup(big, h);
    PointStays(hash, after, before, at, p);
    LookupIsNearest(big.Keys, h, p);
    forall q | q in small.Keys ensures Distance(h, p) <= Distance(h, q) {
      PointsShrink(hash, after, before, at, q);
    }
    LookupIsNearest(small.Keys, h, p);
    LookupUnique(small.Keys, h, p, Lookup(small, h));
  }

  /** Equivalently, adding workers moves tasks only to the added ones. */
  lemma GrowthMovesOnlyToNew(hash: Hash, before: seq<Id>, after: seq<Id>, task: string)
    requires Unique(after) && Subsequence(before, after) && before != [] && after != []
    ensures Owner(hash, after, task) == Owner(hash, before, task) || Owner(hash, after, task) !in before
  {
    if Owner(hash, after, task) in before {
      Stability(hash, after, before, task);
    }
  }
}
