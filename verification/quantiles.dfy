/** Order statistics of finite sequences of reals: the behaviour of numpy's
    `sort`, `min`, `max`, `median` and `quantile` (with the "lower" and
    "higher" interpolation rules) that the interval engine relies on. */
module Quantiles {

  predicate Sorted(s: seq<real>) {
    forall i, j :: 0 <= i < j < |s| ==> s[i] <= s[j]
  }

  /** Inserts `x` into a sorted sequence, keeping it sorted. */
  function Insert(x: real, s: seq<real>): (r: seq<real>)
    requires Sorted(s)
    ensures |r| == |s| + 1
    ensures Sorted(r)
    ensures multiset(r) == multiset(s) + multiset{x}
  {
    if |s| == 0 then [x]
    else if x <= s[0] then [x] + s
    else
      var t := Insert(x, s[1..]);
      assert s == [s[0]] + s[1..];
      BoundKept(x, s[1..], t, s[0]);
      ConsSorted(s[0], t);
      [s[0]] + t
  }

  /** Prefixing a lower bound of a sorted sequence keeps it sorted. */
  lemma ConsSorted(b: real, t: seq<real>)
    requires Sorted(t)
    requires forall j :: 0 <= j < |t| ==> b <= t[j]
    ensures Sorted([b] + t)
  {
  }

  /** A common lower bound of `x` and of every entry of `s` bounds every
      entry of a rearrangement of `s` with `x` added. */
  lemma BoundKept(x: real, s: seq<real>, t: seq<real>, b: real)
    requires multiset(t) == multiset(s) + multiset{x} && b <= x
    requires forall j :: 0 <= j < |s| ==> b <= s[j]
    ensures forall j :: 0 <= j < |t| ==> b <= t[j]
  {
    forall j | 0 <= j < |t|
      ensures b <= t[j]
    {
      assert t[j] in multiset(t);
      if t[j] != x {
        assert t[j] in multiset(s);
      }
    }
  }

  /** The ascending rearrangement of `a` (numpy's `np.sort`). */
  function Sort(a: seq<real>): (s: seq<real>)
    ensures |s| == |a|
    ensures Sorted(s)
    ensures multiset(s) == multiset(a)
  {
    if |a| == 0 then []
    else
      assert a == [a[0]] + a[1..];
      Insert(a[0], Sort(a[1..]))
  }

  /** Every entry of the sorted rearrangement is an entry of the input. */
  lemma SortedEntryIsElement(a: seq<real>, k: nat)
    requires k < |a|
    ensures Sort(a)[k] in a
  {
    var s := Sort(a);
    assert s[k] in multiset(s);
  }

  function Min(a: seq<real>): (m: real)
    requires |a| > 0
    ensures m in a
    ensures forall i :: 0 <= i < |a| ==> m <= a[i]
  {
    if |a| == 1 then a[0]
    else
      var rest := Min(a[1..]);
      assert forall i :: 1 <= i < |a| ==> a[i] == a[1..][i - 1];
      if a[0] <= rest then a[0] else rest
  }

  function Max(a: seq<real>): (m: real)
    requires |a| > 0
    ensures m in a
    ensures forall i :: 0 <= i < |a| ==> a[i] <= m
  {
    if |a| == 1 then a[0]
    else
      var rest := Max(a[1..]);
      assert forall i :: 1 <= i < |a| ==> a[i] == a[1..][i - 1];
      if rest <= a[0] then a[0] else rest
  }

  /** Any element of `a` lies between its minimum and its maximum. */
  lemma ElementWithinRange(a: seq<real>, v: real)
    requires v in a
    ensures Min(a) <= v <= Max(a)
  {
    var i :| 0 <= i < |a| && a[i] == v;
  }

  /** Every entry of the sorted rearrangement lies between the row's
      minimum and maximum. */
  lemma SortedEntryWithinRange(a: seq<real>, k: nat)
    requires k < |a|
    ensures Min(a) <= Sort(a)[k] <= Max(a)
  {
    SortedEntryIsElement(a, k);
    ElementWithinRange(a, Sort(a)[k]);
  }

  /** The mean of two values lies between any common bounds of both. */
  lemma MidpointWithin(u: real, v: real, lo: real, hi: real)
    requires lo <= u <= hi && lo <= v <= hi
    ensures lo <= (u + v) / 2.0 <= hi
  {
  }

  /** numpy's `np.median`: the middle element of the sorted row, or the mean
      of the two middle elements when the length is even. */
  function Median(a: seq<real>): (m: real)
    requires |a| > 0
    ensures Min(a) <= m <= Max(a)
    ensures m == (QuantileLower(a, 0.5) + QuantileHigher(a, 0.5)) / 2.0
  {
    MiddleIndices(|a|);
    var h := |a| / 2;
    if |a| % 2 == 1 then
      SortedEntryWithinRange(a, h);
      Sort(a)[h]
    else
      MiddlePairWithin(a, h);
      (Sort(a)[h - 1] + Sort(a)[h]) / 2.0
  }

  /** The mean of two entries of the sorted row lies between the row's
      minimum and maximum. */
  lemma MiddlePairWithin(a: seq<real>, h: nat)
    requires 0 < h < |a|
    ensures Min(a) <= (Sort(a)[h - 1] + Sort(a)[h]) / 2.0 <= Max(a)
  {
    SortedEntryWithinRange(a, h - 1);
    SortedEntryWithinRange(a, h);
    MidpointWithin(Sort(a)[h - 1], Sort(a)[h], Min(a), Max(a));
  }

  /** 0 <= p * m <= m for a probability p and a count m. */
  lemma ScaledWithin(p: real, m: nat)
    requires 0.0 <= p <= 1.0
    ensures 0.0 <= p * m as real <= m as real
  {
    assert p * m as real <= 1.0 * m as real;
  }

  /** Rank used by interpolation="lower": the floor of the virtual index
      p * (n - 1) of a row of length n. */
  function LowerIndex(n: nat, p: real): (k: nat)
    requires n > 0 && 0.0 <= p <= 1.0
    ensures k < n
    ensures k as real <= p * (n - 1) as real < k as real + 1.0
  {
    ScaledWithin(p, n - 1);
    (p * (n - 1) as real).Floor
  }

  /** Rank used by interpolation="higher": the ceiling of the virtual index
      p * (n - 1) of a row of length n. */
  function HigherIndex(n: nat, p: real): (k: nat)
    requires n > 0 && 0.0 <= p <= 1.0
    ensures k < n
    ensures k as real - 1.0 < p * (n - 1) as real <= k as real
  {
    ScaledWithin(p, n - 1);
    var v := p * (n - 1) as real;
    var f := (-v).Floor;
    -f
  }

  /** At p = 1/2 both rules pick the middle position of an odd-length row;
      for an even length they pick the two middle positions. */
  lemma MiddleIndices(n: nat)
    requires n > 0
    ensures n % 2 == 1 ==> LowerIndex(n, 0.5) == n / 2 == HigherIndex(n, 0.5)
    ensures n % 2 == 0 ==> LowerIndex(n, 0.5) == n / 2 - 1 && HigherIndex(n, 0.5) == n / 2
  {
    var h := n / 2;
    if n % 2 == 1 {
      assert 0.5 * (n - 1) as real == h as real;
    } else {
      assert 0.5 * (n - 1) as real == h as real - 0.5;
    }
  }

  /** Number of entries of `a` strictly below `q`. */
  function CountBelow(a: seq<real>, q: real): nat {
    if |a| == 0 then 0 else (if a[0] < q then 1 else 0) + CountBelow(a[1..], q)
  }

  /** Number of entries of `a` at most `q`. */
  function CountAtMost(a: seq<real>, q: real): nat {
    if |a| == 0 then 0 else (if a[0] <= q then 1 else 0) + CountAtMost(a[1..], q)
  }

  /** Inserting `x` adds one to each count that `x` falls under. */
  lemma {:induction false} InsertCounts(x: real, s: seq<real>, q: real)
    requires Sorted(s)
    ensures CountBelow(Insert(x, s), q) == CountBelow(s, q) + (if x < q then 1 else 0)
    ensures CountAtMost(Insert(x, s), q) == CountAtMost(s, q) + (if x <= q then 1 else 0)
  {
    if |s| == 0 {
      assert Insert(x, s)[1..] == [];
    } else if x <= s[0] {
      assert Insert(x, s)[1..] == s;
    } else {
      InsertCounts(x, s[1..], q);
      assert Insert(x, s)[1..] == Insert(x, s[1..]);
    }
  }

  /** Sorting keeps both counts. */
  lemma {:induction false} SortKeepsCounts(a: seq<real>, q: real)
    ensures CountBelow(Sort(a), q) == CountBelow(a, q)
    ensures CountAtMost(Sort(a), q) == CountAtMost(a, q)
  {
    if |a| > 0 {
      SortKeepsCounts(a[1..], q);
      InsertCounts(a[0], Sort(a[1..]), q);
    }
  }

  /** No entry lies below a lower bound of all entries. */
  lemma {:induction false} NoneBelow(s: seq<real>, q: real)
    requires forall i :: 0 <= i < |s| ==> q <= s[i]
    ensures CountBelow(s, q) == 0
  {
    if |s| > 0 {
      NoneBelow(s[1..], q);
    }
  }

  /** In a sorted sequence, at most k entries lie below position k and more
      than k lie at or below it. */
  lemma {:induction false} SortedPositionRank(s: seq<real>, k: nat)
    requires Sorted(s) && k < |s|
    ensures CountBelow(s, s[k]) <= k < CountAtMost(s, s[k])
  {
    if k == 0 {
      NoneBelow(s[1..], s[0]);
    } else {
      assert s[1..][k - 1] == s[k];
      SortedPositionRank(s[1..], k - 1);
    }
  }

  /** The entry at position k of the sorted row is the k-th order statistic
      of the row itself: at most k entries lie below it and more than k at
      or below it. */
  lemma SortedEntryRank(a: seq<real>, k: nat)
    requires k < |a|
    ensures CountBelow(a, Sort(a)[k]) <= k < CountAtMost(a, Sort(a)[k])
  {
    SortKeepsCounts(a, Sort(a)[k]);
    SortedPositionRank(Sort(a), k);
  }

  /** Every entry at most `u` is below any larger `v`. */
  lemma {:induction false} CountsOrdered(a: seq<real>, u: real, v: real)
    requires u < v
    ensures CountAtMost(a, u) <= CountBelow(a, v)
  {
    if |a| > 0 {
      CountsOrdered(a[1..], u, v);
    }
  }

  /** The rank condition pins the value: two values with rank k in the same
      row are equal. */
  lemma RankPinsValue(a: seq<real>, k: nat, u: real, v: real)
    requires CountBelow(a, u) <= k < CountAtMost(a, u)
    requires CountBelow(a, v) <= k < CountAtMost(a, v)
    ensures u == v
  {
    if u < v {
      CountsOrdered(a, u, v);
    } else if v < u {
      CountsOrdered(a, v, u);
    }
  }

  /** `np.quantile(a, p, interpolation="lower")`: the order statistic of rank
      floor(p * (n - 1)). */
  function QuantileLower(a: seq<real>, p: real): (q: real)
    requires |a| > 0 && 0.0 <= p <= 1.0
    ensures q in a
    ensures Min(a) <= q <= Max(a)
    ensures CountBelow(a, q) <= LowerIndex(|a|, p) < CountAtMost(a, q)
  {
    var k := LowerIndex(|a|, p);
    SortedEntryIsElement(a, k);
    ElementWithinRange(a, Sort(a)[k]);
    SortedEntryRank(a, k);
    Sort(a)[k]
  }

  /** `np.quantile(a, p, interpolation="higher")`: the order statistic of
      rank ceil(p * (n - 1)). */
  function QuantileHigher(a: seq<real>, p: real): (q: real)
    requires |a| > 0 && 0.0 <= p <= 1.0
    ensures q in a
    ensures Min(a) <= q <= Max(a)
    ensures CountBelow(a, q) <= HigherIndex(|a|, p) < CountAtMost(a, q)
  {
    var k := HigherIndex(|a|, p);
    SortedEntryIsElement(a, k);
    ElementWithinRange(a, Sort(a)[k]);
    SortedEntryRank(a, k);
    Sort(a)[k]
  }

  /** At the same probability, the "lower" rule never exceeds the "higher" one. */
  lemma LowerRuleBelowHigherRule(a: seq<real>, p: real)
    requires |a| > 0 && 0.0 <= p <= 1.0
    ensures QuantileLower(a, p) <= QuantileHigher(a, p)
  {
    var lo := LowerIndex(|a|, p);
    var hi := HigherIndex(|a|, p);
    assert lo <= hi;
  }

  /** When all entries of a row are non-negative, so is each of its quantiles. */
  lemma QuantileOfNonNegative(a: seq<real>, p: real)
    requires |a| > 0 && 0.0 <= p <= 1.0
    requires forall i :: 0 <= i < |a| ==> 0.0 <= a[i]
    ensures 0.0 <= QuantileLower(a, p)
    ensures 0.0 <= QuantileHigher(a, p)
  {
  }

  /** Raising entries never adds entries at or below a value. */
  lemma {:induction false} AtMostMonotone(lo: seq<real>, hi: seq<real>, v: real)
    requires |lo| == |hi| && forall j :: 0 <= j < |lo| ==> lo[j] <= hi[j]
    ensures CountAtMost(hi, v) <= CountAtMost(lo, v)
  {
    if |lo| > 0 {
      AtMostMonotone(lo[1..], hi[1..], v);
    }
  }

  /** The order statistic of each rank is monotone in the row: raising
      entries never lowers it. */
  lemma OrderStatMonotone(lo: seq<real>, hi: seq<real>, k: nat)
    requires |lo| == |hi| && k < |lo|
    requires forall j :: 0 <= j < |lo| ==> lo[j] <= hi[j]
    ensures Sort(lo)[k] <= Sort(hi)[k]
  {
    var x, y := Sort(lo)[k], Sort(hi)[k];
    if y < x {
      SortedEntryRank(lo, k);
      SortedEntryRank(hi, k);
      AtMostMonotone(lo, hi, y);
      CountsOrdered(lo, y, x);
      assert false;
    }
  }

  /** For alpha at most 1/2 the "lower" rank at alpha is at most the
      "higher" rank at 1 - alpha. */
  lemma MirroredIndices(n: nat, alpha: real)
    requires n > 0 && 0.0 <= alpha <= 0.5
    ensures LowerIndex(n, alpha) <= HigherIndex(n, 1.0 - alpha)
  {
    IndexPairOrdered(LowerIndex(n, alpha), HigherIndex(n, 1.0 - alpha), alpha, (n - 1) as real);
  }

  /** An integer at most alpha * m and one at least (1 - alpha) * m are
      ordered when alpha <= 1/2. */
  lemma IndexPairOrdered(k1: int, k2: int, alpha: real, m: real)
    requires 0.0 <= alpha <= 0.5 && 0.0 <= m
    requires k1 as real <= alpha * m
    requires (1.0 - alpha) * m <= k2 as real
    ensures k1 <= k2
  {
    ScaledBelow(alpha, 1.0 - alpha, m);
  }

  /** Scaling by a non-negative factor keeps order. */
  lemma ScaledBelow(u: real, v: real, m: real)
    requires u <= v && 0.0 <= m
    ensures u * m <= v * m
  {
    assert (v - u) * m >= 0.0;
  }

  /** A row below another entry by entry has its "lower" alpha quantile
      below the other's "higher" (1 - alpha) quantile when alpha <= 1/2. */
  lemma QuantileBandOrdered(lo: seq<real>, hi: seq<real>, alpha: real)
    requires |lo| == |hi| && |lo| > 0 && 0.0 <= alpha <= 0.5
    requires forall j :: 0 <= j < |lo| ==> lo[j] <= hi[j]
    ensures QuantileLower(lo, alpha) <= QuantileHigher(hi, 1.0 - alpha)
  {
    var k1 := LowerIndex(|lo|, alpha);
    var k2 := HigherIndex(|hi|, 1.0 - alpha);
    MirroredIndices(|lo|, alpha);
    SortedEntriesOrdered(lo, k1, k2);
    OrderStatMonotone(lo, hi, k2);
    assert QuantileLower(lo, alpha) == Sort(lo)[k1];
    assert QuantileHigher(hi, 1.0 - alpha) == Sort(hi)[k2];
  }

  /** Later positions of the sorted row hold no smaller entries. */
  lemma SortedEntriesOrdered(a: seq<real>, i: nat, j: nat)
    requires i <= j < |a|
    ensures Sort(a)[i] <= Sort(a)[j]
  {
    var s := Sort(a);
    assert Sorted(s);
    if i < j {
      assert s[i] <= s[j];
    }
  }
}
