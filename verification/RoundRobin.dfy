/** Weighted round robin: the accumulating scan, and that it is exact over any full turn. */
module RoundRobin {

  ghost predicate Positive(weights: seq<int>)
  {
    forall i | 0 <= i < |weights| :: weights[i] >= 1
  }

  /** Total of the first k weights. */
  function Prefix(weights: seq<int>, k: nat): int
    requires k <= |weights|
  {
    if k == 0 then 0 else Prefix(weights, k - 1) + weights[k - 1]
  }

  lemma {:induction false} PrefixGrows(weights: seq<int>, i: nat, j: nat)
    requires Positive(weights) && i <= j <= |weights|
    ensures Prefix(weights, i) + (j - i) <= Prefix(weights, j)
    decreases j
  {
    if i < j {
      PrefixGrows(weights, i, j - 1);
    }
  }

  /** r falls in the slot of entry k. */
  predicate InSlot(weights: seq<int>, r: int, k: nat)
  {
    k < |weights| && Prefix(weights, k) <= r < Prefix(weights, k + 1)
  }

  lemma SlotUnique(weights: seq<int>, r: int, i: nat, j: nat)
    requires Positive(weights) && InSlot(weights, r, i) && InSlot(weights, r, j)
    ensures i == j
  {
    if i < j {
      PrefixGrows(weights, i + 1, j);
    } else if j < i {
      PrefixGrows(weights, j + 1, i);
    }
  }

  function Residue(c: nat, total: int): int
    requires total > 0
  {
    c % total
  }

  lemma ResidueSmall(c: nat, total: int)
    requires c < total
    ensures Residue(c, total) == c
  {}

  lemma ResidueShift(c: nat, total: int)
    requires total > 0
    ensures Residue(c + total, total) == Residue(c, total)
  {
    var q, r := c / total, c % total;
    var q', r' := (c + total) / total, (c + total) % total;
    assert c == total * q + r && c + total == total * q' + r';
    RemaindersAgree(total, q + 1, r, q', r') by {
      assert total * (q + 1) == total * q + total;
    }
  }

  lemma RemaindersAgree(d: int, q: int, r: int, q': int, r': int)
    requires d > 0 && 0 <= r < d && 0 <= r' < d && d * q + r == d * q' + r'
    ensures r == r'
  {
    if q < q' {
      Multiple(d, q, q');
    } else if q' < q {
      Multiple(d, q', q);
    }
  }

  lemma {:induction false} Multiple(d: int, low: int, high: int)
    requires d > 0 && low < high
    ensures d * low + d <= d * high
    decreases high - low
  {
    if low + 1 < high {
      Multiple(d, low, high - 1);
    }
    assert d * high == d * (high - 1) + d;
  }

  /** select_weighted_round_robin on a non-empty list of positive weights: neither fallback is ever
      taken, the pick is the entry whose slot holds the counter modulo the total, and the counter
      moves on by one. */
  method SelectWeighted(weights: seq<int>, counter: nat) returns (k: nat, next: nat)
    requires weights != [] && Positive(weights)
    ensures next == counter + 1
    ensures Prefix(weights, |weights|) > 0
    ensures InSlot(weights, Residue(counter, Prefix(weights, |weights|)), k)
  {
    var total := 0;
    for i := 0 to |weights|
      invariant total == Prefix(weights, i)
    {
      total := total + weights[i];
    }
    PrefixGrows(weights, 0, |weights|);
    var index := Residue(counter, total);
    next := counter + 1;
    var current := 0;
    k := 0;
    while k < |weights|
      invariant 0 <= k <= |weights|
      invariant current == Prefix(weights, k) <= index
    {
      current := current + weights[k];
      if index < current {
        return;
      }
      k := k + 1;
    }
    assert false;
  }

  /** How many of the counter values c, ..., c + n - 1 pick entry j. */
  ghost function Picks(weights: seq<int>, c: nat, n: nat, j: nat): nat
    requires j < |weights| && Prefix(weights, |weights|) > 0
  {
    if n == 0 then 0
    else Picks(weights, c, n - 1, j) +
         if InSlot(weights, Residue(c + n - 1, Prefix(weights, |weights|)), j) then 1 else 0
  }

  lemma {:induction false} PicksFromZero(weights: seq<int>, n: nat, j: nat)
    requires Positive(weights) && j < |weights| && Prefix(weights, |weights|) > 0 && n <= Prefix(weights, |weights|)
    ensures Picks(weights, 0, n, j) ==
            if n <= Prefix(weights, j) then 0
            else if n >= Prefix(weights, j + 1) then weights[j] else n - Prefix(weights, j)
  {
    hide Residue;
    PrefixGrows(weights, 0, j);
    if n > 0 {
      PicksFromZero(weights, n - 1, j);
      ResidueSmall(n - 1, Prefix(weights, |weights|));
    }
  }

  lemma {:induction false} PicksDropFirst(weights: seq<int>, c: nat, n: nat, j: nat)
    requires j < |weights| && Prefix(weights, |weights|) > 0
    ensures Picks(weights, c, n + 1, j) ==
            Picks(weights, c + 1, n, j) + if InSlot(weights, Residue(c, Prefix(weights, |weights|)), j) then 1 else 0
  {
    hide Residue;
    if n > 0 {
      PicksDropFirst(weights, c, n - 1, j);
    }
  }

  /** Exactness: any total-weight consecutive picks, from any counter value, choose each entry exactly
      its weight many times. */
  lemma {:induction false} WeightedExact(weights: seq<int>, c: nat, j: nat)
    requires Positive(weights) && j < |weights|
    ensures Prefix(weights, |weights|) > 0
    ensures Picks(weights, c, Prefix(weights, |weights|), j) == weights[j]
  {
    hide Residue, InSlot;
    PrefixGrows(weights, 0, |weights|);
    PrefixGrows(weights, j + 1, |weights|);
    var total := Prefix(weights, |weights|);
    if c == 0 {
      PicksFromZero(weights, total, j);
    } else {
      WeightedExact(weights, c - 1, j);
      PicksDropFirst(weights, c - 1, total, j);
      ResidueShift(c - 1, total);
    }
  }

  /** How often an entry is picked by n consecutive calls on a list that stays the same. */
  method SelectMany(weights: seq<int>, counter: nat, n: nat) returns (picks: seq<nat>, next: nat)
    requires weights != [] && Positive(weights)
    ensures |picks| == n && next == counter + n && Prefix(weights, |weights|) > 0
    ensures forall i | 0 <= i < n :: picks[i] < |weights|
    ensures forall j: nat | j < |weights| :: multiset(picks)[j] == Picks(weights, counter, n, j)
  {
    hide InSlot, Residue, Prefix;
    PrefixGrows(weights, 0, |weights|);
    TotalPositive(weights);
    picks, next := [], counter;
    for i := 0 to n
      invariant |picks| == i && next == counter + i
      invariant forall m | 0 <= m < i :: picks[m] < |weights|
      invariant forall j: nat | j < |weights| :: multiset(picks)[j] == Picks(weights, counter, i, j)
    {
      var k;
      k, next := SelectWeighted(weights, next);
      SlotOnly(weights, Residue(counter + i, Prefix(weights, |weights|)), k);
      picks := picks + [k];
    }
  }

  lemma TotalPositive(weights: seq<int>)
    requires weights != [] && Positive(weights)
    ensures Prefix(weights, |weights|) > 0
  {
    PrefixGrows(weights, 0, |weights|);
  }

  lemma SlotOnly(weights: seq<int>, r: int, k: nat)
    requires Positive(weights) && InSlot(weights, r, k)
    ensures k < |weights| && forall j: nat :: InSlot(weights, r, j) <==> j == k
  {
    forall j: nat | InSlot(weights, r, j) ensures j == k {
      SlotUnique(weights, r, j, k);
    }
  }

  /** A full turn, from any counter value: total-weight consecutive calls pick each worker exactly its
      weight many times. */
  method SelectTurn(weights: seq<int>, counter: nat) returns (picks: seq<nat>, next: nat)
    requires weights != [] && Positive(weights)
    ensures |picks| == Prefix(weights, |weights|) && next == counter + |picks|
    ensures forall j: nat | j < |weights| :: multiset(picks)[j] == weights[j]
  {
    hide InSlot, Residue, Prefix, Picks;
    TotalPositive(weights);
    picks, next := SelectMany(weights, counter, Prefix(weights, |weights|));
    forall j: nat | j < |weights| ensures multiset(picks)[j] == weights[j] {
      WeightedExact(weights, counter, j);
    }
  }
}
