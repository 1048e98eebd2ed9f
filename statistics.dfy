/**
 * The latency statistics the load tester asks numpy for (np.mean, np.median,
 * np.percentile with its default linear method, np.min, np.max), computed
 * exactly over `real` instead of IEEE doubles.
 */
module Statistics {

  ghost predicate IsSorted(s: seq<real>) {
    forall i, j :: 0 <= i < j < |s| ==> s[i] <= s[j]
  }

  /** Inserts `x` into a sorted sequence, keeping it sorted. */
  function Insert(x: real, s: seq<real>): (r: seq<real>)
    requires IsSorted(s)
    ensures IsSorted(r)
    ensures |r| == |s| + 1
    ensures multiset(r) == multiset(s) + multiset{x}
    ensures r[0] == x || (s != [] && r[0] == s[0])
  {
    if s == [] || x <= s[0] then
      SortedCons(x, s);
      [x] + s
    else
      var tail := Insert(x, s[1..]);
      assert s == [s[0]] + s[1..];
      SortedCons(s[0], tail);
      [s[0]] + tail
  }

  /** A sorted sequence stays sorted under a new first element no greater than its head. */
  lemma SortedCons(a: real, t: seq<real>)
    requires IsSorted(t) && (t == [] || a <= t[0])
    ensures IsSorted([a] + t)
  {
  }

  /** The ascending ordering of a sample (what numpy ranks before interpolating). */
  function Sort(s: seq<real>): (r: seq<real>)
    ensures IsSorted(r)
    ensures |r| == |s|
    ensures multiset(r) == multiset(s)
  {
    if s == [] then []
    else
      assert s == [s[0]] + s[1..];
      Insert(s[0], Sort(s[1..]))
  }

  function Sum(s: seq<real>): real {
    if s == [] then 0.0 else s[0] + Sum(s[1..])
  }

  /** np.mean: the arithmetic average. */
  function Mean(s: seq<real>): real
    requires |s| > 0
  {
    Sum(s) / (|s| as real)
  }

  /** np.min */
  function Min(s: seq<real>): (r: real)
    requires |s| > 0
    ensures r in s
    ensures forall i :: 0 <= i < |s| ==> r <= s[i]
  {
    if |s| == 1 then s[0]
    else
      var m := Min(s[1..]);
      assert forall i :: 1 <= i < |s| ==> s[i] == s[1..][i - 1];
      if s[0] <= m then s[0] else m
  }

  /** np.max */
  function Max(s: seq<real>): (r: real)
    requires |s| > 0
    ensures r in s
    ensures forall i :: 0 <= i < |s| ==> s[i] <= r
  {
    if |s| == 1 then s[0]
    else
      var m := Max(s[1..]);
      assert forall i :: 1 <= i < |s| ==> s[i] == s[1..][i - 1];
      if s[0] >= m then s[0] else m
  }

  /** The point a fraction `f` of the way from `a` to `b`. */
  function Lerp(a: real, b: real, f: real): real {
    a + f * (b - a)
  }

  /**
   * Linear interpolation at fractional position `rank` of a sorted sequence:
   * the element at the floor of the rank plus the fractional part of the rank
   * times the gap to the next element (the last element has no successor).
   */
  function AtRank(t: seq<real>, rank: real): real
    requires |t| > 0 && 0.0 <= rank <= (|t| - 1) as real
  {
    var lo := rank.Floor;
    var hi := if lo + 1 < |t| then lo + 1 else |t| - 1;
    Lerp(t[lo], t[hi], rank - lo as real)
  }

  /** The fractional rank numpy interpolates at for percentile p of k values. */
  function Rank(p: real, k: nat): (r: real)
    requires 0.0 <= p <= 100.0 && k > 0
    ensures 0.0 <= r <= (k - 1) as real
  {
    var f, x := p / 100.0, (k - 1) as real;
    ScaleBetween(f, x);
    f * x
  }

  /** np.percentile(s, p): interpolation at rank p/100 * (k - 1) of the sorted sample. */
  function Percentile(s: seq<real>, p: real): real
    requires |s| > 0 && 0.0 <= p <= 100.0
  {
    AtRank(Sort(s), Rank(p, |s|))
  }

  /** np.median: the middle element, or the average of the two middle elements. */
  function Median(s: seq<real>): real
    requires |s| > 0
  {
    Middle(Sort(s))
  }

  /** The middle element of a sorted sequence, or the average of the two middle elements. */
  function Middle(t: seq<real>): real
    requires |t| > 0
  {
    var k := |t|;
    if k % 2 == 1 then t[k / 2] else (t[k / 2 - 1] + t[k / 2]) / 2.0
  }

  /** The seven latency figures the load tester reports. */
  datatype Summary = Summary(
    mean: real, median: real, p90: real, p95: real, p99: real, min: real, max: real)

  /** Every figure of the summary of a non-empty sample, as numpy computes it. */
  function Describe(s: seq<real>): (r: Summary)
    requires |s| > 0
    ensures r == Summary(Mean(s), Median(s), Percentile(s, 90.0), Percentile(s, 95.0), Percentile(s, 99.0),
                         Min(s), Max(s))
    ensures r.min in s && r.max in s
    ensures forall i :: 0 <= i < |s| ==> r.min <= s[i] <= r.max
    ensures r.min <= r.mean <= r.max
    ensures r.min <= r.median <= r.p90 <= r.p95 <= r.p99 <= r.max
  {
    MeanBetweenMinMax(s);
    MedianIsPercentile50(s);
    PercentileMonotone(s, 50.0, 90.0);
    PercentileMonotone(s, 90.0, 95.0);
    PercentileMonotone(s, 95.0, 99.0);
    PercentileBounds(s, 50.0);
    PercentileBounds(s, 99.0);
    Summary(Mean(s), Median(s), Percentile(s, 90.0), Percentile(s, 95.0), Percentile(s, 99.0),
            Min(s), Max(s))
  }

  /** Sorting a sequence that is already ascending leaves it unchanged. */
  lemma {:induction false} SortOfSorted(s: seq<real>)
    requires IsSorted(s)
    ensures Sort(s) == s
  {
    if s != [] {
      SortOfSorted(s[1..]);
      assert s == [s[0]] + s[1..];
    }
  }

  /** Scaling by a factor between 0 and 1 keeps a non-negative value between 0 and itself. */
  lemma ScaleBetween(f: real, x: real)
    requires 0.0 <= f <= 1.0 && x >= 0.0
    ensures 0.0 <= f * x <= x
  {
    assert x - f * x == (1.0 - f) * x;
  }

  /** Scaling by a non-negative factor is monotone. */
  lemma ScaleMonotone(a: real, b: real, x: real)
    requires a <= b && x >= 0.0
    ensures a * x <= b * x
  {
    assert b * x - a * x == (b - a) * x;
  }

  /** A sum of |s| terms, each between lo and hi, lies between |s|·lo and |s|·hi. */
  lemma {:induction false} SumBounds(s: seq<real>, lo: real, hi: real)
    requires forall i :: 0 <= i < |s| ==> lo <= s[i] <= hi
    ensures (|s| as real) * lo <= Sum(s) <= (|s| as real) * hi
  {
    if s != [] {
      SumBounds(s[1..], lo, hi);
      var k := (|s| - 1) as real;
      assert (|s| as real) * lo == k * lo + lo;
      assert (|s| as real) * hi == k * hi + hi;
    }
  }

  /** A quotient by n is bounded by the bounds of the dividend divided by n. */
  lemma DivideBounds(sum: real, n: real, lo: real, hi: real)
    requires n > 0.0 && n * lo <= sum <= n * hi
    ensures lo <= sum / n <= hi
  {
    assert (sum / n) * n == sum;
  }

  /** The mean of values that all lie between lo and hi lies between lo and hi. */
  lemma MeanBounds(s: seq<real>, lo: real, hi: real)
    requires |s| > 0
    requires forall i :: 0 <= i < |s| ==> lo <= s[i] <= hi
    ensures lo <= Mean(s) <= hi
  {
    SumBounds(s, lo, hi);
    DivideBounds(Sum(s), |s| as real, lo, hi);
  }

  /** np.mean lies between np.min and np.max. */
  lemma MeanBetweenMinMax(s: seq<real>)
    requires |s| > 0
    ensures Min(s) <= Mean(s) <= Max(s)
  {
    MeanBounds(s, Min(s), Max(s));
  }

  /** The sorted sample starts with its minimum and ends with its maximum. */
  lemma SortEnds(s: seq<real>)
    requires |s| > 0
    ensures Sort(s)[0] == Min(s) && Sort(s)[|s| - 1] == Max(s)
  {
    var t := Sort(s);
    SortedFirstIsLeast(t, s, Min(s));
    SortedLastIsGreatest(t, s, Max(s));
  }

  /** An ascending rearrangement of s starts with the least element of s. */
  lemma SortedFirstIsLeast(t: seq<real>, s: seq<real>, m: real)
    requires |t| > 0 && IsSorted(t) && multiset(t) == multiset(s)
    requires m in s && forall i :: 0 <= i < |s| ==> m <= s[i]
    ensures t[0] == m
  {
    assert t[0] in multiset(t);
    var i :| 0 <= i < |s| && s[i] == t[0];
    assert m in multiset(s);
    var k :| 0 <= k < |t| && t[k] == m;
    assert m <= s[i] && t[0] <= t[k];
  }

  /** An ascending rearrangement of s ends with the greatest element of s. */
  lemma SortedLastIsGreatest(t: seq<real>, s: seq<real>, m: real)
    requires |t| > 0 && IsSorted(t) && multiset(t) == multiset(s)
    requires m in s && forall i :: 0 <= i < |s| ==> s[i] <= m
    ensures t[|t| - 1] == m
  {
    assert t[|t| - 1] in multiset(t);
    var i :| 0 <= i < |s| && s[i] == t[|t| - 1];
    assert m in multiset(s);
    var k :| 0 <= k < |t| && t[k] == m;
    assert s[i] <= m && t[k] <= t[|t| - 1];
  }

  /** A fraction of the way between a and b is between a and b. */
  lemma LerpBounds(a: real, b: real, f: real)
    requires a <= b && 0.0 <= f <= 1.0
    ensures a <= Lerp(a, b, f) <= b
  {
    var d := b - a;
    ScaleBetween(f, d);
    assert Lerp(a, b, f) == a + f * d;
  }

  /** Moving further from a towards b (a <= b) never decreases the point reached. */
  lemma LerpMonotone(a: real, b: real, f1: real, f2: real)
    requires a <= b && f1 <= f2
    ensures Lerp(a, b, f1) <= Lerp(a, b, f2)
  {
    ScaleMonotone(f1, f2, b - a);
  }

  /** Interpolation between two neighbours stays between them. */
  lemma AtRankBounds(t: seq<real>, rank: real)
    requires |t| > 0 && 0.0 <= rank <= (|t| - 1) as real
    requires IsSorted(t)
    ensures t[rank.Floor] <= AtRank(t, rank) <= t[if rank.Floor + 1 < |t| then rank.Floor + 1 else |t| - 1]
  {
    var lo := rank.Floor;
    var hi := if lo + 1 < |t| then lo + 1 else |t| - 1;
    LerpBounds(t[lo], t[hi], rank - lo as real);
  }

  /** Interpolation in a sorted sequence stays between its first and last element. */
  lemma AtRankWithin(t: seq<real>, rank: real)
    requires |t| > 0 && 0.0 <= rank <= (|t| - 1) as real
    requires IsSorted(t)
    ensures t[0] <= AtRank(t, rank) <= t[|t| - 1]
  {
    AtRankBounds(t, rank);
    var lo := rank.Floor;
    var hi := if lo + 1 < |t| then lo + 1 else |t| - 1;
    assert t[0] <= t[lo];
    assert t[hi] <= t[|t| - 1];
  }

  /** Every percentile lies between np.min and np.max. */
  lemma PercentileBounds(s: seq<real>, p: real)
    requires |s| > 0 && 0.0 <= p <= 100.0
    ensures Min(s) <= Percentile(s, p) <= Max(s)
  {
    AtRankWithin(Sort(s), Rank(p, |s|));
    SortEnds(s);
  }

  /** Interpolation is monotone in the rank. */
  lemma AtRankMonotone(t: seq<real>, r1: real, r2: real)
    requires |t| > 0 && 0.0 <= r1 <= r2 <= (|t| - 1) as real
    requires IsSorted(t)
    ensures AtRank(t, r1) <= AtRank(t, r2)
  {
    AtRankBounds(t, r1);
    AtRankBounds(t, r2);
    var lo1, lo2 := r1.Floor, r2.Floor;
    if lo1 == lo2 {
      var hi := if lo1 + 1 < |t| then lo1 + 1 else |t| - 1;
      LerpMonotone(t[lo1], t[hi], r1 - lo1 as real, r2 - lo2 as real);
    } else {
      assert t[lo1 + 1] <= t[lo2];
    }
  }

  /** A higher percentile is never smaller than a lower one. */
  lemma PercentileMonotone(s: seq<real>, p: real, q: real)
    requires |s| > 0 && 0.0 <= p <= q <= 100.0
    ensures Percentile(s, p) <= Percentile(s, q)
  {
    var t, r1, r2 := Sort(s), Rank(p, |s|), Rank(q, |s|);
    RankMonotone(p, q, |s|);
    assert |t| == |s| && 0.0 <= r1 <= r2 <= (|s| - 1) as real;
    AtRankMonotone(t, r1, r2);
  }

  /** The interpolation rank grows with p. */
  lemma RankMonotone(p: real, q: real, k: nat)
    requires 0.0 <= p <= q <= 100.0 && k > 0
    ensures Rank(p, k) <= Rank(q, k)
  {
    var a, b, x := p / 100.0, q / 100.0, (k - 1) as real;
    var r1, r2 := Rank(p, k), Rank(q, k);
    assert r1 == a * x;
    assert r2 == b * x;
    ScaleMonotone(a, b, x);
    assert a * x <= b * x;
  }

  /** The rank of the 50th percentile: the middle index, or halfway between the two middle ones. */
  lemma HalfRank(k: nat)
    requires k > 0
    ensures k % 2 == 1 ==> Rank(50.0, k).Floor == k / 2 && Rank(50.0, k) == (k / 2) as real
    ensures k % 2 == 0 ==> Rank(50.0, k).Floor == k / 2 - 1 && Rank(50.0, k) == (k / 2 - 1) as real + 0.5
  {
  }

  /** np.median agrees with np.percentile at 50 under linear interpolation. */
  lemma MedianIsPercentile50(s: seq<real>)
    requires |s| > 0
    ensures Median(s) == Percentile(s, 50.0)
  {
    MiddleIsHalfRank(Sort(s));
  }

  /** The middle of a sequence is its interpolation at the rank of the 50th percentile. */
  lemma MiddleIsHalfRank(t: seq<real>)
    requires |t| > 0
    ensures Middle(t) == AtRank(t, Rank(50.0, |t|))
  {
    var k := |t|;
    var r := Rank(50.0, k);
    HalfRank(k);
    if k % 2 == 1 {
      assert r.Floor == k / 2 && r - (k / 2) as real == 0.0;
    } else {
      assert r.Floor == k / 2 - 1 && k / 2 < k;
      assert r - (k / 2 - 1) as real == 0.5;
      assert Lerp(t[k / 2 - 1], t[k / 2], 0.5) == (t[k / 2 - 1] + t[k / 2]) / 2.0;
    }
  }

  /** The sample 1, 2, ..., k seconds, in order. */
  ghost predicate IsOneToK(s: seq<real>) {
    forall i :: 0 <= i < |s| ==> s[i] == (i + 1) as real
  }

  /** numpy's reference percentiles for 1..10: p90 = 9.1 (rank 8.1), p95 = 9.55, p99 = 9.91. */
  lemma OneToTenPercentiles(s: seq<real>)
    requires |s| == 10 && IsOneToK(s)
    ensures Percentile(s, 90.0) == 9.1
    ensures Percentile(s, 95.0) == 9.55
    ensures Percentile(s, 99.0) == 9.91
  {
    SortOfSorted(s);
    assert Rank(90.0, 10) == 8.1 && (8.1).Floor == 8;
    assert Rank(95.0, 10) == 8.55 && (8.55).Floor == 8;
    assert Rank(99.0, 10) == 8.91 && (8.91).Floor == 8;
    assert s[8] == 9.0 && s[9] == 10.0;
  }

  /** Twice the sum of the run c, c+1, ..., c+n-1 is n(2c+n-1). */
  lemma {:induction false} SumOfRun(s: seq<real>, c: int)
    requires forall i :: 0 <= i < |s| ==> s[i] == (i + c) as real
    ensures Sum(s) * 2.0 == (|s| * (2 * c + |s| - 1)) as real
  {
    if s != [] {
      var n, t := |s|, s[1..];
      assert forall i :: 0 <= i < |t| ==> t[i] == s[i + 1];
      SumOfRun(t, c + 1);
      assert (n - 1) * (2 * c + n) + 2 * c == n * (2 * c + n - 1);
    }
  }

  /** numpy's reference median and mean for 1..10: both 5.5. */
  lemma OneToTenMedianAndMean(s: seq<real>)
    requires |s| == 10 && IsOneToK(s)
    ensures Median(s) == 5.5
    ensures Mean(s) == 5.5
  {
    SortOfSorted(s);
    assert s[4] == 5.0 && s[5] == 6.0;
    SumOfRun(s, 1);
  }
}
