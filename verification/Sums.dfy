/** Totals of a per-element quantity over a sequence, and how they move when the
    sequence changes in one place. */
module Sums {

  /** The total over the first `n` elements. */
  function SumTo<T>(s: seq<T>, n: nat, f: T -> int): int
    requires n <= |s|
  {
    if n == 0 then 0 else SumTo(s, n - 1, f) + f(s[n - 1])
  }

  function Sum<T>(s: seq<T>, f: T -> int): int
  {
    SumTo(s, |s|, f)
  }

  /** A total depends only on what each position contributes. */
  lemma {:induction false} SumToSame<T>(s: seq<T>, t: seq<T>, n: nat, f: T -> int)
    requires n <= |s| && n <= |t|
    requires forall i | 0 <= i < n :: f(s[i]) == f(t[i])
    ensures SumTo(s, n, f) == SumTo(t, n, f)
  {
    if n > 0 {
      SumToSame(s, t, n - 1, f);
    }
  }

  lemma SumPointwise<T>(s: seq<T>, t: seq<T>, f: T -> int)
    requires |s| == |t|
    requires forall i | 0 <= i < |s| :: f(s[i]) == f(t[i])
    ensures Sum(s, f) == Sum(t, f)
  {
    SumToSame(s, t, |s|, f);
  }

  lemma SumAppend<T>(s: seq<T>, x: T, f: T -> int)
    ensures Sum(s + [x], f) == Sum(s, f) + f(x)
  {
    SumToSame(s + [x], s, |s|, f);
  }

  lemma {:induction false} SumToUpdate<T>(s: seq<T>, n: nat, i: nat, x: T, f: T -> int)
    requires i < n <= |s|
    ensures SumTo(s[i := x], n, f) == SumTo(s, n, f) - f(s[i]) + f(x)
  {
    if i == n - 1 {
      SumToSame(s[i := x], s, i, f);
    } else {
      SumToUpdate(s, n - 1, i, x, f);
    }
  }

  lemma SumUpdate<T>(s: seq<T>, i: nat, x: T, f: T -> int)
    requires i < |s|
    ensures Sum(s[i := x], f) == Sum(s, f) - f(s[i]) + f(x)
  {
    SumToUpdate(s, |s|, i, x, f);
  }

  lemma {:induction false} SumZero<T>(s: seq<T>, n: nat, f: T -> int)
    requires n <= |s| && forall i | 0 <= i < n :: f(s[i]) == 0
    ensures SumTo(s, n, f) == 0
  {
    if n > 0 {
      SumZero(s, n - 1, f);
    }
  }

  lemma {:induction false} SumNonNegative<T>(s: seq<T>, n: nat, f: T -> int)
    requires n <= |s| && forall i | 0 <= i < n :: 0 <= f(s[i])
    ensures 0 <= SumTo(s, n, f)
  {
    if n > 0 {
      SumNonNegative(s, n - 1, f);
    }
  }

  /** Pointwise order carries over to totals, with the gap of any one position `k` to spare. */
  lemma {:induction false} SumGap<T>(s: seq<T>, n: nat, f: T -> int, g: T -> int, k: nat)
    requires n <= |s| && k < |s| && forall i | 0 <= i < n :: f(s[i]) <= g(s[i])
    ensures SumTo(s, n, f) + (if k < n then g(s[k]) - f(s[k]) else 0) <= SumTo(s, n, g)
  {
    if n > 0 {
      SumGap(s, n - 1, f, g, k);
    }
  }

  /** A positive total has a positive contribution somewhere. */
  lemma {:induction false} SumWitness<T>(s: seq<T>, n: nat, f: T -> int) returns (k: nat)
    requires n <= |s| && 0 < SumTo(s, n, f)
    ensures k < n && 0 < f(s[k])
  {
    if 0 < f(s[n - 1]) {
      k := n - 1;
    } else {
      k := SumWitness(s, n - 1, f);
    }
  }

  lemma {:induction false} SumToConcat<T>(a: seq<T>, b: seq<T>, n: nat, f: T -> int)
    requires n <= |b|
    ensures SumTo(a + b, |a| + n, f) == Sum(a, f) + SumTo(b, n, f)
  {
    if n == 0 {
      SumToSame(a + b, a, |a|, f);
    } else {
      SumToConcat(a, b, n - 1, f);
    }
  }

  lemma SumConcat<T>(a: seq<T>, b: seq<T>, f: T -> int)
    ensures Sum(a + b, f) == Sum(a, f) + Sum(b, f)
  {
    SumToConcat(a, b, |b|, f);
  }

  lemma SumRemove<T>(b: seq<T>, j: nat, f: T -> int)
    requires j < |b|
    ensures Sum(b, f) == Sum(b[..j] + b[j + 1..], f) + f(b[j])
  {
    assert b == b[..j] + [b[j]] + b[j + 1..];
    SumConcat(b[..j], b[j + 1..], f);
    SumAppend(b[..j], b[j], f);
    SumConcat(b[..j] + [b[j]], b[j + 1..], f);
  }

  lemma RemoveOne<T>(b: seq<T>, j: nat)
    requires j < |b|
    ensures multiset(b[..j] + b[j + 1..]) == multiset(b) - multiset{b[j]}
  {
    assert b == b[..j] + [b[j]] + b[j + 1..];
    assert multiset(b) == multiset(b[..j]) + multiset{b[j]} + multiset(b[j + 1..]);
  }

  /** A total does not depend on the order of the elements. */
  lemma {:induction false} SumPermute<T>(a: seq<T>, b: seq<T>, f: T -> int)
    requires multiset(a) == multiset(b)
    ensures Sum(a, f) == Sum(b, f)
    decreases |a|
  {
    if a == [] {
      assert |multiset(b)| == 0;
    } else {
      var n := |a| - 1;
      assert a[n] in multiset(b);
      var j :| 0 <= j < |b| && b[j] == a[n];
      RemoveOne(a, n);
      RemoveOne(b, j);
      assert a[..n] + a[n + 1..] == a[..n];
      SumPermute(a[..n], b[..j] + b[j + 1..], f);
      SumToSame(a, a[..n], n, f);
      SumRemove(b, j, f);
    }
  }

  /** The multiset of whatever the first `n` elements contribute. */
  function CollectTo<T, X>(s: seq<T>, n: nat, f: T -> multiset<X>): multiset<X>
    requires n <= |s|
  {
    if n == 0 then multiset{} else CollectTo(s, n - 1, f) + f(s[n - 1])
  }

  function Collect<T, X>(s: seq<T>, f: T -> multiset<X>): multiset<X>
  {
    CollectTo(s, |s|, f)
  }

  lemma {:induction false} CollectToSame<T, X>(s: seq<T>, t: seq<T>, n: nat, f: T -> multiset<X>)
    requires n <= |s| && n <= |t|
    requires forall i | 0 <= i < n :: f(s[i]) == f(t[i])
    ensures CollectTo(s, n, f) == CollectTo(t, n, f)
  {
    if n > 0 {
      CollectToSame(s, t, n - 1, f);
    }
  }

  lemma CollectPointwise<T, X>(s: seq<T>, t: seq<T>, f: T -> multiset<X>)
    requires |s| == |t|
    requires forall i | 0 <= i < |s| :: f(s[i]) == f(t[i])
    ensures Collect(s, f) == Collect(t, f)
  {
    CollectToSame(s, t, |s|, f);
  }

  lemma CollectAppend<T, X>(s: seq<T>, x: T, f: T -> multiset<X>)
    ensures Collect(s + [x], f) == Collect(s, f) + f(x)
  {
    CollectToSame(s + [x], s, |s|, f);
  }

  lemma {:induction false} CollectToUpdate<T, X>(s: seq<T>, n: nat, i: nat, x: T, f: T -> multiset<X>)
    requires i < n <= |s|
    ensures CollectTo(s[i := x], n, f) + f(s[i]) == CollectTo(s, n, f) + f(x)
  {
    if i == n - 1 {
      CollectToSame(s[i := x], s, i, f);
    } else {
      CollectToUpdate(s, n - 1, i, x, f);
      var before, after := CollectTo(s, n - 1, f), CollectTo(s[i := x], n - 1, f);
      assert after + f(s[n - 1]) + f(s[i]) == after + f(s[i]) + f(s[n - 1]) == before + f(s[n - 1]) + f(x);
    }
  }

  lemma CollectUpdate<T, X>(s: seq<T>, i: nat, x: T, f: T -> multiset<X>)
    requires i < |s|
    ensures Collect(s[i := x], f) + f(s[i]) == Collect(s, f) + f(x)
  {
    CollectToUpdate(s, |s|, i, x, f);
  }
}
