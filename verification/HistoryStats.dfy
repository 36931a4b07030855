/** Percentiles and row sampling of the history API (backend/app/api/routes_history.py). */
module HistoryStats {
  import opened Wrappers

  ghost predicate Sorted(s: seq<real>) {
    forall i, j :: 0 <= i < j < |s| ==> s[i] <= s[j]
  }

  // ---------- percentiles ----------

  /** The value a fraction `w` of the way from `a` to `b`. */
  function Between(a: real, b: real, w: real): real {
    a * (1.0 - w) + b * w
  }

  function Position(s: seq<real>, fraction: real): real
    requires s != []
  {
    (|s| - 1) as real * fraction
  }

  /** Interpolation at a position within the list. */
  function At(s: seq<real>, position: real): real
    requires s != [] && 0.0 <= position <= (|s| - 1) as real
  {
    var lower := position.Floor;
    var upper := if lower + 1 <= |s| - 1 then lower + 1 else |s| - 1;
    Between(s[lower], s[upper], position - lower as real)
  }

  lemma PositionInside(s: seq<real>, fraction: real)
    requires s != [] && 0.0 <= fraction <= 1.0
    ensures 0.0 <= Position(s, fraction) <= (|s| - 1) as real
  {
    var n := (|s| - 1) as real;
    assert n >= 0.0;
    assert n * fraction <= n * 1.0;
  }

  /** `_percentile`: None for an empty list. */
  function Percentile(s: seq<real>, fraction: real): Option<real>
    requires 0.0 <= fraction <= 1.0
  {
    if s == [] then None
    else if |s| == 1 then Some(s[0])
    else
      PositionInside(s, fraction);
      Some(At(s, Position(s, fraction)))
  }

  lemma BetweenBounds(a: real, b: real, w: real)
    requires a <= b && 0.0 <= w <= 1.0
    ensures a <= Between(a, b, w) <= b
    ensures w == 0.0 ==> Between(a, b, w) == a
  {
    var d := b - a;
    assert d * w >= 0.0;
    assert d * w <= d;
    assert Between(a, b, w) == a + d * w;
  }

  lemma BetweenMonotone(a: real, b: real, v: real, w: real)
    requires a <= b && v <= w
    ensures Between(a, b, v) <= Between(a, b, w)
  {
    var d := b - a;
    assert d * (w - v) >= 0.0;
    assert Between(a, b, w) - Between(a, b, v) == d * (w - v);
  }

  /** Interpolation stays between the neighbours of its position. */
  lemma AtBounds(s: seq<real>, p: real)
    requires s != [] && Sorted(s) && 0.0 <= p <= (|s| - 1) as real
    ensures s[p.Floor] <= At(s, p)
    ensures p.Floor + 1 < |s| ==> At(s, p) <= s[p.Floor + 1]
    ensures p.Floor + 1 == |s| ==> At(s, p) == s[p.Floor]
    ensures p == p.Floor as real ==> At(s, p) == s[p.Floor]
  {
    var lower := p.Floor;
    var upper := if lower + 1 <= |s| - 1 then lower + 1 else |s| - 1;
    BetweenBounds(s[lower], s[upper], p - lower as real);
  }

  lemma AtMonotone(s: seq<real>, p: real, q: real)
    requires s != [] && Sorted(s) && 0.0 <= p <= q <= (|s| - 1) as real
    ensures At(s, p) <= At(s, q)
  {
    hide Between;
    if p.Floor == q.Floor {
      var lower := p.Floor;
      var upper := if lower + 1 <= |s| - 1 then lower + 1 else |s| - 1;
      BetweenMonotone(s[lower], s[upper], p - lower as real, q - lower as real);
    } else {
      assert p.Floor + 1 <= q.Floor;
      AtBounds(s, p);
      AtBounds(s, q);
    }
  }

  /** Percentiles of a sorted list lie between its ends and grow with the fraction; the ends
      themselves are the percentiles of 0 and 1. */
  lemma PercentilesAreMonotone(s: seq<real>, f: real, g: real)
    requires s != [] && Sorted(s) && 0.0 <= f <= g <= 1.0
    ensures Percentile(s, f).Some? && Percentile(s, g).Some?
    ensures s[0] <= Percentile(s, f).value <= Percentile(s, g).value <= s[|s| - 1]
    ensures Percentile(s, 0.0) == Some(s[0]) && Percentile(s, 1.0) == Some(s[|s| - 1])
  {
    if |s| > 1 {
      hide At;
      PositionInside(s, f);
      PositionInside(s, g);
      var n := (|s| - 1) as real;
      assert n * (g - f) >= 0.0;
      assert Position(s, f) <= Position(s, g);
      AtMonotone(s, 0.0, Position(s, f));
      AtMonotone(s, Position(s, f), Position(s, g));
      AtMonotone(s, Position(s, g), n);
      AtBounds(s, 0.0);
      AtBounds(s, n);
      assert Position(s, 0.0) == 0.0 && Position(s, 1.0) == n;
    }
  }

  /** A percentile lies on the line between the two values around its position. */
  lemma PercentileInterpolates(s: seq<real>, f: real, k: nat)
    requires k + 1 < |s| && 0.0 <= f <= 1.0 && k as real <= (|s| - 1) as real * f <= (k + 1) as real
    ensures Percentile(s, f) == Some(Between(s[k], s[k + 1], (|s| - 1) as real * f - k as real))
  {
    var p := Position(s, f);
    PositionInside(s, f);
    hide Between;
    var (a, b) := (s[k], s[k + 1]);
    if p == (k + 1) as real {
      assert p.Floor == k + 1;
      var upper := if k + 2 <= |s| - 1 then k + 2 else |s| - 1;
      LineBetween(b, s[upper], 0.0);
      LineBetween(a, b, 1.0);
      assert p - k as real == 1.0;
    } else {
      assert p.Floor == k;
      LineBetween(a, b, p - k as real);
    }
  }

  /** The line from `a` to `b`: its ends, its middle and everything in proportion. */
  lemma LineBetween(a: real, b: real, w: real)
    ensures Between(a, b, w) == a + w * (b - a)
    ensures w == 0.0 ==> Between(a, b, w) == a
    ensures w == 1.0 ==> Between(a, b, w) == b
    ensures w == 0.5 ==> Between(a, b, w) == (a + b) / 2.0
  {}

  /** The median is the middle value, or the mean of the two middle ones. */
  lemma MedianIsTheMiddle(s: seq<real>)
    requires s != []
    ensures Percentile(s, 0.5) ==
              if |s| % 2 == 1 then Some(s[|s| / 2]) else Some((s[|s| / 2 - 1] + s[|s| / 2]) / 2.0)
  {
    hide Percentile;
    if |s| == 1 {
      SingleValue(s, 0.5);
    } else if |s| % 2 == 1 {
      var k := |s| / 2;
      assert |s| - 1 == 2 * k && (|s| - 1) as real * 0.5 == k as real;
      PercentileInterpolates(s, 0.5, k);
      LineBetween(s[k], s[k + 1], 0.0);
    } else {
      var k := |s| / 2 - 1;
      assert |s| - 1 == 2 * k + 1 && (|s| - 1) as real * 0.5 - k as real == 0.5;
      PercentileInterpolates(s, 0.5, k);
      LineBetween(s[k], s[k + 1], 0.5);
      assert k + 1 == |s| / 2;
    }
  }

  lemma SingleValue(s: seq<real>, f: real)
    requires |s| == 1 && 0.0 <= f <= 1.0
    ensures Percentile(s, f) == Some(s[0])
  {}

  function Sum(s: seq<real>): real {
    if s == [] then 0.0 else Sum(s[..|s| - 1]) + s[|s| - 1]
  }

  lemma {:induction false} SumBounds(s: seq<real>, lo: real, hi: real)
    requires forall i :: 0 <= i < |s| ==> lo <= s[i] <= hi
    ensures |s| as real * lo <= Sum(s) <= |s| as real * hi
  {
    if s != [] {
      SumBounds(s[..|s| - 1], lo, hi);
      assert |s| as real == |s[..|s| - 1]| as real + 1.0;
    }
  }

  /** What `_field_stats` reports is in order: min <= p05 <= median <= p95 <= max, and the mean lies
      between min and max. */
  lemma StatsAreOrdered(s: seq<real>)
    requires s != [] && Sorted(s)
    ensures var (p05, median, p95) := (Percentile(s, 0.05), Percentile(s, 0.5), Percentile(s, 0.95));
            && p05.Some? && median.Some? && p95.Some?
            && s[0] <= p05.value <= median.value <= p95.value <= s[|s| - 1]
            && s[0] <= Sum(s) / |s| as real <= s[|s| - 1]
  {
    hide Percentile, Sum;
    PercentilesAreMonotone(s, 0.05, 0.5);
    PercentilesAreMonotone(s, 0.5, 0.95);
    var (lo, hi) := (s[0], s[|s| - 1]);
    forall i | 0 <= i < |s| ensures lo <= s[i] <= hi {}
    SumBounds(s, lo, hi);
    DivideBounds(Sum(s), |s| as real, lo, hi);
  }

  lemma DivideBounds(sum: real, n: real, lo: real, hi: real)
    requires n > 0.0 && n * lo <= sum <= n * hi
    ensures lo <= sum / n <= hi
  {
    var q := sum / n;
    assert q * n == sum;
  }

  // ---------- sampling ----------

  /** Python's `round`: to the nearest integer, halves to the even one. */
  function Round(x: real): int {
    var f := x.Floor;
    var rest := x - f as real;
    if rest < 0.5 || (rest == 0.5 && f % 2 == 0) then f else f + 1
  }

  lemma RoundNear(x: real)
    ensures x - 0.5 <= Round(x) as real <= x + 0.5
    ensures x == x.Floor as real ==> Round(x) == x.Floor
  {}

  /** A half is rounded to the even neighbour. */
  lemma HalvesToEven(x: real)
    ensures Round(x) as real == x - 0.5 || Round(x) as real == x + 0.5 ==> Round(x) % 2 == 0
  {}

  /** Numbers more than one apart never round to the same integer. */
  lemma RoundSeparates(x: real, y: real)
    requires x + 1.0 < y
    ensures Round(x) < Round(y)
  {
    RoundNear(x);
    RoundNear(y);
  }

  /** The exact position of sample `i` of `limit` over `n` rows. */
  function Exact(i: nat, n: nat, limit: nat): real
    requires limit >= 2
  {
    (i * (n - 1)) as real / (limit - 1) as real
  }

  function Index(i: nat, n: nat, limit: nat): int
    requires limit >= 2
  {
    Round(Exact(i, n, limit))
  }

  function Indexes(n: nat, limit: nat): set<int>
    requires limit >= 2
  {
    set i | 0 <= i < limit :: Index(i, n, limit)
  }

  /** Sample `i` is the row nearest to the i-th of `limit` even steps from the first row to the last, and an
      even one of two equally near. */
  lemma IndexIsNearest(i: nat, n: nat, limit: nat)
    requires limit >= 2
    ensures Exact(i, n, limit) - 0.5 <= Index(i, n, limit) as real <= Exact(i, n, limit) + 0.5
    ensures Index(i, n, limit) as real == Exact(i, n, limit) - 0.5 || Index(i, n, limit) as real == Exact(i, n, limit) + 0.5 ==>
              Index(i, n, limit) % 2 == 0
    ensures Exact(i, n, limit) * (limit - 1) as real == (i * (n - 1)) as real
  {
    HalvesToEven(Exact(i, n, limit));
    RoundNear(Exact(i, n, limit));
  }

  /** The rows whose index is in the set, in order. */
  function Picked<T>(rows: seq<T>, indexes: set<int>): seq<T> {
    if rows == [] then []
    else Picked(rows[..|rows| - 1], indexes) + if |rows| - 1 in indexes then [rows[|rows| - 1]] else []
  }

  /** `_sample_rows`. */
  function SampleRows<T>(rows: seq<T>, limit: nat): seq<T> {
    if |rows| <= limit then rows
    else if limit <= 1 then [rows[|rows| - 1]]
    else Picked(rows, Indexes(|rows|, limit))
  }

  lemma ExactSteps(i: nat, n: nat, limit: nat)
    requires n > limit >= 2
    ensures Exact(i, n, limit) + 1.0 < Exact(i + 1, n, limit)
    ensures Exact(0, n, limit) == 0.0 && Exact(limit - 1, n, limit) == (n - 1) as real
  {
    var d, a := (limit - 1) as real, (n - 1) as real;
    assert ((i + 1) * (n - 1)) as real == (i * (n - 1)) as real + a by {
      assert (i + 1) * (n - 1) == i * (n - 1) + (n - 1);
    }
    assert Exact(i + 1, n, limit) == Exact(i, n, limit) + a / d;
    QuotientAboveOne(a, d);
    assert ((limit - 1) * (n - 1)) as real == d * a;
    QuotientOfProduct(a, d);
  }

  lemma QuotientAboveOne(a: real, d: real)
    requires a > d > 0.0
    ensures a / d > 1.0
  {
    var q := a / d;
    assert q * d == a;
  }

  lemma QuotientOfProduct(a: real, d: real)
    requires d > 0.0
    ensures d * a / d == a
  {}

  /** The sampled indexes strictly increase, from the first row to the last. */
  lemma {:induction false} IndexesIncrease(i: nat, j: nat, n: nat, limit: nat)
    requires n > limit >= 2 && i < j < limit
    ensures 0 <= Index(i, n, limit) < Index(j, n, limit) <= n - 1
    ensures Index(0, n, limit) == 0 && Index(limit - 1, n, limit) == n - 1
    decreases j - i
  {
    hide Exact, Round;
    IndexEnds(n, limit);
    IndexInside(i, n, limit);
    IndexInside(j, n, limit);
    ExactSteps(j - 1, n, limit);
    RoundSeparates(Exact(j - 1, n, limit), Exact(j, n, limit));
    if i < j - 1 {
      IndexesIncrease(i, j - 1, n, limit);
    }
  }

  lemma IndexEnds(n: nat, limit: nat)
    requires n > limit >= 2
    ensures Index(0, n, limit) == 0 && Index(limit - 1, n, limit) == n - 1
  {
    hide Exact;
    ExactSteps(0, n, limit);
  }

  lemma {:induction false} IndexInside(i: nat, n: nat, limit: nat)
    requires n > limit >= 2 && i < limit
    ensures 0 <= Index(i, n, limit) <= n - 1
  {
    hide Exact, Round;
    IndexEnds(n, limit);
    IndexFromFirst(i, n, limit);
    IndexToLast(i, n, limit);
  }

  lemma {:induction false} IndexFromFirst(i: nat, n: nat, limit: nat)
    requires n > limit >= 2 && i < limit
    ensures Index(0, n, limit) <= Index(i, n, limit)
  {
    hide Exact, Round;
    if i > 0 {
      IndexFromFirst(i - 1, n, limit);
      ExactSteps(i - 1, n, limit);
      RoundSeparates(Exact(i - 1, n, limit), Exact(i, n, limit));
    }
  }

  lemma {:induction false} IndexToLast(i: nat, n: nat, limit: nat)
    requires n > limit >= 2 && i < limit
    ensures Index(i, n, limit) <= Index(limit - 1, n, limit)
    decreases limit - i
  {
    hide Exact, Round;
    if i + 1 < limit {
      IndexToLast(i + 1, n, limit);
      ExactSteps(i, n, limit);
      RoundSeparates(Exact(i, n, limit), Exact(i + 1, n, limit));
    }
  }

  /** The rows at the first `k` sampled indexes. */
  function RowsAt<T>(rows: seq<T>, limit: nat, k: nat): seq<T>
    requires |rows| > limit >= 2 && k <= limit
  {
    seq(k, i requires 0 <= i < k => (IndexInside(i, |rows|, limit); rows[Index(i, |rows|, limit)]))
  }

  /** Among the first `m` rows, those picked are the ones at the sampled indexes below `m`. */
  lemma {:induction false} PickedAre<T>(rows: seq<T>, limit: nat, m: nat, k: nat)
    requires |rows| > limit >= 2 && m <= |rows| && k <= limit
    requires forall i :: 0 <= i < limit ==> (i < k <==> Index(i, |rows|, limit) < m)
    ensures Picked(rows[..m], Indexes(|rows|, limit)) == RowsAt(rows, limit, k)
    decreases m
  {
    hide Index;
    var n := |rows|;
    if m == 0 {
      if k > 0 { IndexInside(0, n, limit); }
    } else {
      var front := rows[..m - 1];
      assert rows[..m][..m - 1] == front && rows[..m][m - 1] == rows[m - 1];
      if m - 1 in Indexes(n, limit) {
        var i: int :| 0 <= i < limit && Index(i, n, limit) == m - 1;
        forall j | 0 <= j < limit ensures j < i <==> Index(j, n, limit) < m - 1 {
          if j < i { IndexesIncrease(j, i, n, limit); }
          if i < j { IndexesIncrease(i, j, n, limit); }
        }
        assert k == i + 1 by {
          assert i < k;
          if i + 1 < k {
            IndexesIncrease(i, i + 1, n, limit);
            assert false;
          }
        }
        PickedAre(rows, limit, m - 1, i);
        assert RowsAt(rows, limit, i) + [rows[m - 1]] == RowsAt(rows, limit, k);
      } else {
        forall i | 0 <= i < limit ensures i < k <==> Index(i, n, limit) < m - 1 {
          assert Index(i, n, limit) in Indexes(n, limit);
        }
        PickedAre(rows, limit, m - 1, k);
        assert RowsAt(rows, limit, k) + [] == RowsAt(rows, limit, k);
      }
    }
  }

  /** Sampling more rows than the limit returns exactly `limit` of them, in order, each at its own
      rounded index, the first and the last row included. */
  lemma SampleIsExact<T>(rows: seq<T>, limit: nat)
    requires |rows| > limit >= 2
    ensures SampleRows(rows, limit) == RowsAt(rows, limit, limit)
    ensures |SampleRows(rows, limit)| == limit
    ensures SampleRows(rows, limit)[0] == rows[0] && SampleRows(rows, limit)[limit - 1] == rows[|rows| - 1]
    ensures forall i, j :: 0 <= i < j < limit ==> 0 <= Index(i, |rows|, limit) < Index(j, |rows|, limit) < |rows|
  {
    hide Index, Picked, Indexes;
    forall i | 0 <= i < limit ensures i < limit <==> Index(i, |rows|, limit) < |rows| {
      IndexInside(i, |rows|, limit);
    }
    PickedAre(rows, limit, |rows|, limit);
    assert rows[..|rows|] == rows;
    IndexEnds(|rows|, limit);
    forall i, j | 0 <= i < j < limit ensures 0 <= Index(i, |rows|, limit) < Index(j, |rows|, limit) < |rows| {
      IndexesIncrease(i, j, |rows|, limit);
    }
  }
}
