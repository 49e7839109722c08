/** Specification of the per-cell statistics that the satellite section of
    make_a_netCDF_file.py computes: how many samples fall in a cell, which
    readings belong to a cell, and the mean and population variance of those
    readings. Sequences are folded from the back, so that a loop that walks
    a prefix `idx[..j]` meets these definitions one element at a time. */
module CellStatistics {

  /** Number of positions of `idx` that hold cell `c` (one bin of `np.bincount`);
      never more than the number of samples. */
  function Count(idx: seq<int>, c: int): (n: nat)
    ensures n <= |idx|
  {
    if |idx| == 0 then 0
    else Count(idx[..|idx| - 1], c) + (if idx[|idx| - 1] == c then 1 else 0)
  }

  /** The positions `j` with `idx[j] == c`, in increasing order (`np.where(idx == c)[0]`). */
  function Positions(idx: seq<int>, c: int): (ps: seq<nat>)
    ensures |ps| == Count(idx, c)
    ensures forall k :: 0 <= k < |ps| ==> ps[k] < |idx| && idx[ps[k]] == c
  {
    if |idx| == 0 then []
    else
      var n := |idx| - 1;
      Positions(idx[..n], c) + (if idx[n] == c then [n] else [])
  }

  /** `Positions` misses no sample of `c` and lists them in increasing order,
      so gathering by it keeps the samples' own order. */
  lemma {:induction false} PositionsComplete(idx: seq<int>, c: int)
    ensures forall j :: 0 <= j < |idx| && idx[j] == c ==> j in Positions(idx, c)
    ensures forall k, l :: 0 <= k < l < |Positions(idx, c)| ==> Positions(idx, c)[k] < Positions(idx, c)[l]
  {
    if |idx| > 0 {
      var n := |idx| - 1;
      var front := Positions(idx[..n], c);
      PositionsComplete(idx[..n], c);
      assert Positions(idx, c) == front + (if idx[n] == c then [n] else []);
      forall j | 0 <= j < |idx| && idx[j] == c
        ensures j in Positions(idx, c)
      {
        if j < n {
          assert idx[..n][j] == idx[j];
        }
      }
    }
  }

  /** The readings of cell `c`, in sample order (`readings[np.where(idx == c)[0]]`). */
  function CellReadings(idx: seq<int>, readings: seq<real>, c: int): (g: seq<real>)
    requires |idx| <= |readings|
    ensures |g| == Count(idx, c)
  {
    var ps := Positions(idx, c);
    seq(|ps|, k requires 0 <= k < |ps| => readings[ps[k]])
  }

  /** Every reading in the group of `c` is the reading of a sample of `c`. */
  lemma CellReadingsBelong(idx: seq<int>, readings: seq<real>, c: int, k: nat)
    requires |idx| <= |readings|
    requires k < Count(idx, c)
    ensures exists j :: 0 <= j < |idx| && idx[j] == c && CellReadings(idx, readings, c)[k] == readings[j]
  {
  }

  /** Sum of a sequence of readings. */
  function Sum(xs: seq<real>): real
  {
    if |xs| == 0 then 0.0 else Sum(xs[..|xs| - 1]) + xs[|xs| - 1]
  }

  /** Reference definition of the sum of the readings of cell `c`, read
      straight off the paired sequences without gathering them first. */
  function SumWhere(idx: seq<int>, readings: seq<real>, c: int): real
    requires |idx| <= |readings|
  {
    if |idx| == 0 then 0.0
    else
      var n := |idx| - 1;
      SumWhere(idx[..n], readings, c) + (if idx[n] == c then readings[n] else 0.0)
  }

  /** Arithmetic mean (`np.mean`) of a non-empty group. */
  function Mean(xs: seq<real>): real
    requires |xs| > 0
  {
    Sum(xs) / |xs| as real
  }

  /** Sum of the squared deviations of `xs` from `m`: never negative, and
      zero exactly when every element equals `m`. */
  function SquaredDeviations(xs: seq<real>, m: real): (r: real)
    ensures r >= 0.0
    ensures r == 0.0 <==> forall k :: 0 <= k < |xs| ==> xs[k] == m
  {
    if |xs| == 0 then 0.0
    else
      var rest := xs[..|xs| - 1];
      var d := xs[|xs| - 1] - m;
      SquareZero(d);
      assert forall k :: 0 <= k < |rest| ==> rest[k] == xs[k];
      SquaredDeviations(rest, m) + d * d
  }

  /** A product is zero only when a factor is. */
  lemma ProductZero(a: real, b: real)
    requires a * b == 0.0
    ensures a == 0.0 || b == 0.0
  {
  }

  /** A product of two factors of the same strict sign is positive. */
  lemma ProductPositive(a: real, b: real)
    requires (a > 0.0 && b > 0.0) || (a < 0.0 && b < 0.0)
    ensures a * b > 0.0
  {
  }

  /** A square is never negative, and zero only at zero. */
  lemma SquareZero(d: real)
    ensures d * d >= 0.0
    ensures d * d == 0.0 <==> d == 0.0
  {
    if d != 0.0 {
      ProductPositive(d, d);
    }
    if d * d == 0.0 {
      ProductZero(d, d);
    }
  }

  /** Population variance (`np.var`, `ddof = 0`) of a non-empty group: the
      squared deviations from the mean divided by the group size. */
  function Variance(xs: seq<real>): (v: real)
    requires |xs| > 0
    ensures v >= 0.0
    ensures v == 0.0 <==> forall k :: 0 <= k < |xs| ==> xs[k] == xs[0]
  {
    MeanOfConstant(xs);
    SquaredDeviations(xs, Mean(xs)) / |xs| as real
  }

  /** `s` is the population standard deviation of the group `xs`: the
      non-negative square root of its variance. */
  predicate IsStandardDeviation(s: real, xs: seq<real>)
    requires |xs| > 0
  {
    0.0 <= s && s * s == Variance(xs)
  }

  /** Smallest element of a non-empty group. */
  function Min(xs: seq<real>): (m: real)
    requires |xs| > 0
    ensures exists k :: 0 <= k < |xs| && xs[k] == m
    ensures forall k :: 0 <= k < |xs| ==> m <= xs[k]
  {
    if |xs| == 1 then xs[0]
    else
      var rest := Min(xs[..|xs| - 1]);
      if xs[|xs| - 1] < rest then xs[|xs| - 1] else rest
  }

  /** Largest element of a non-empty group. */
  function Max(xs: seq<real>): (m: real)
    requires |xs| > 0
    ensures exists k :: 0 <= k < |xs| && xs[k] == m
    ensures forall k :: 0 <= k < |xs| ==> xs[k] <= m
  {
    if |xs| == 1 then xs[0]
    else
      var rest := Max(xs[..|xs| - 1]);
      if rest < xs[|xs| - 1] then xs[|xs| - 1] else rest
  }

  /** The bins of `np.bincount` over `n` cells. */
  function Histogram(idx: seq<int>, n: nat): (h: seq<nat>)
    ensures |h| == n
  {
    seq(n, c => Count(idx, c))
  }

  /** Sum of a sequence of counts. */
  function Total(s: seq<nat>): nat
  {
    if |s| == 0 then 0 else Total(s[..|s| - 1]) + s[|s| - 1]
  }

  // ---------------------------------------------------------------------
  // Counting

  /** Raising one bin by one raises the total by one. */
  lemma {:induction false} TotalIncrement(s: seq<nat>, v: nat)
    requires v < |s|
    ensures Total(s[v := s[v] + 1]) == Total(s) + 1
  {
    var n := |s| - 1;
    var t := s[v := s[v] + 1];
    if v == n {
      assert t[..n] == s[..n];
    } else {
      assert t[..n] == s[..n][v := s[v] + 1];
      TotalIncrement(s[..n], v);
    }
  }

  /** When every index lies in `[0, n)`, the `n` bins add up to the number
      of indices: no sample is lost or counted twice. */
  lemma {:induction false} HistogramTotal(idx: seq<int>, n: nat)
    requires forall j :: 0 <= j < |idx| ==> 0 <= idx[j] < n
    ensures Total(Histogram(idx, n)) == |idx|
  {
    if |idx| == 0 {
      TotalZero(Histogram(idx, n));
    } else {
      var m := |idx| - 1;
      var v := idx[m];
      HistogramTotal(idx[..m], n);
      var before := Histogram(idx[..m], n);
      assert Histogram(idx, n) == before[v := before[v] + 1];
      TotalIncrement(before, v);
    }
  }

  /** All-zero bins have total zero. */
  lemma {:induction false} TotalZero(s: seq<nat>)
    requires forall k :: 0 <= k < |s| ==> s[k] == 0
    ensures Total(s) == 0
  {
    if |s| > 0 {
      TotalZero(s[..|s| - 1]);
    }
  }

  /** A cell outside the range of every index gets no samples. */
  lemma {:induction false} CountOutsideRange(idx: seq<int>, n: nat, c: int)
    requires forall j :: 0 <= j < |idx| ==> 0 <= idx[j] < n
    requires c < 0 || n <= c
    ensures Count(idx, c) == 0
  {
    if |idx| > 0 {
      CountOutsideRange(idx[..|idx| - 1], n, c);
    }
  }

  /** A bin is empty exactly when no sample holds its cell. */
  lemma {:induction false} CountZeroIff(idx: seq<int>, c: int)
    ensures Count(idx, c) == 0 <==> forall j :: 0 <= j < |idx| ==> idx[j] != c
  {
    if |idx| > 0 {
      var n := |idx| - 1;
      CountZeroIff(idx[..n], c);
      assert forall j :: 0 <= j < n ==> idx[..n][j] == idx[j];
    }
  }

  // ---------------------------------------------------------------------
  // Grouping and sums

  /** Appending one sample appends its reading to its own cell's group and
      leaves every other group as it was. */
  lemma CellReadingsSnoc(idx: seq<int>, readings: seq<real>, c: int)
    requires 0 < |idx| <= |readings|
    ensures var n := |idx| - 1;
      CellReadings(idx, readings, c)
        == CellReadings(idx[..n], readings, c) + (if idx[n] == c then [readings[n]] else [])
  {
  }

  /** The sum of an extended sequence is the old sum plus the new element. */
  lemma SumSnoc(xs: seq<real>, x: real)
    ensures Sum(xs + [x]) == Sum(xs) + x
  {
  }

  /** Gathering a cell's readings and adding them up gives the reference sum. */
  lemma {:induction false} CellReadingsSum(idx: seq<int>, readings: seq<real>, c: int)
    requires |idx| <= |readings|
    ensures Sum(CellReadings(idx, readings, c)) == SumWhere(idx, readings, c)
  {
    if |idx| > 0 {
      var n := |idx| - 1;
      CellReadingsSum(idx[..n], readings, c);
      CellReadingsSnoc(idx, readings, c);
      if idx[n] == c {
        SumSnoc(CellReadings(idx[..n], readings, c), readings[n]);
      } else {
        assert CellReadings(idx, readings, c) == CellReadings(idx[..n], readings, c);
      }
    }
  }

  /** The mean of a non-empty cell is the reference sum of its readings over
      its sample count. */
  lemma CellMeanIsSumOverCount(idx: seq<int>, readings: seq<real>, c: int)
    requires |idx| <= |readings|
    requires Count(idx, c) > 0
    ensures Mean(CellReadings(idx, readings, c)) == SumWhere(idx, readings, c) / Count(idx, c) as real
  {
    CellReadingsSum(idx, readings, c);
  }

  // ---------------------------------------------------------------------
  // Mean and variance

  /** Bounds on every element bound the sum by the size times the bound. */
  lemma {:induction false} SumBounds(xs: seq<real>, lo: real, hi: real)
    requires forall k :: 0 <= k < |xs| ==> lo <= xs[k] <= hi
    ensures |xs| as real * lo <= Sum(xs) <= |xs| as real * hi
  {
    if |xs| > 0 {
      var n := |xs| - 1;
      SumBounds(xs[..n], lo, hi);
      assert |xs| as real * lo == n as real * lo + lo;
      assert |xs| as real * hi == n as real * hi + hi;
    }
  }

  /** Bounds on every reading of a group bound its mean. */
  lemma MeanBounds(xs: seq<real>, lo: real, hi: real)
    requires |xs| > 0
    requires forall k :: 0 <= k < |xs| ==> lo <= xs[k] <= hi
    ensures lo <= Mean(xs) <= hi
  {
    SumBounds(xs, lo, hi);
    QuotientBounds(Sum(xs), |xs| as real, lo, hi);
  }

  /** The mean of a group lies between its smallest and its largest reading. */
  lemma MeanWithinRange(xs: seq<real>)
    requires |xs| > 0
    ensures Min(xs) <= Mean(xs) <= Max(xs)
  {
    MeanBounds(xs, Min(xs), Max(xs));
  }

  /** Dividing bounds `n * lo <= s <= n * hi` by a positive `n`. */
  lemma QuotientBounds(s: real, n: real, lo: real, hi: real)
    requires n > 0.0
    requires n * lo <= s <= n * hi
    ensures lo <= s / n <= hi
  {
  }

  /** The mean of a non-empty cell lies between the smallest and the largest
      reading of that cell's own samples. */
  lemma CellMeanWithinReadings(idx: seq<int>, readings: seq<real>, c: int)
    requires |idx| <= |readings|
    requires Count(idx, c) > 0
    ensures exists j :: 0 <= j < |idx| && idx[j] == c && readings[j] <= Mean(CellReadings(idx, readings, c))
    ensures exists j :: 0 <= j < |idx| && idx[j] == c && Mean(CellReadings(idx, readings, c)) <= readings[j]
  {
    var g := CellReadings(idx, readings, c);
    MeanWithinRange(g);
    var lo :| 0 <= lo < |g| && g[lo] == Min(g);
    var hi :| 0 <= hi < |g| && g[hi] == Max(g);
    CellReadingsBelong(idx, readings, c, lo);
    CellReadingsBelong(idx, readings, c, hi);
  }

  /** A group whose readings are all equal has that reading as its mean. */
  lemma MeanOfConstant(xs: seq<real>)
    requires |xs| > 0
    ensures (forall k :: 0 <= k < |xs| ==> xs[k] == xs[0]) ==> Mean(xs) == xs[0]
  {
    if forall k :: 0 <= k < |xs| ==> xs[k] == xs[0] {
      SumBounds(xs, xs[0], xs[0]);
    }
  }

  /** A group of one reading has variance zero. */
  lemma SingleSampleVariance(xs: seq<real>)
    requires |xs| == 1
    ensures Variance(xs) == 0.0
  {
  }

  /** A standard deviation is zero exactly when the readings of the group
      all agree; in particular the standard deviation of a single reading is
      zero, not missing. */
  lemma StdZeroIffConstant(xs: seq<real>, s: real)
    requires |xs| > 0
    requires IsStandardDeviation(s, xs)
    ensures s == 0.0 <==> forall k :: 0 <= k < |xs| ==> xs[k] == xs[0]
    ensures |xs| == 1 ==> s == 0.0
  {
    SquareZero(s);
  }

  // ---------------------------------------------------------------------
  // Worked example: indices [0, 0, 1, 2] with readings [0.5, 0.7, 0.3, 0.9]
  // over three cells give counts [2, 1, 1], means [0.6, 0.3, 0.9] and
  // standard deviations [0.1, 0.0, 0.0].

  lemma ExampleCounts()
    ensures Histogram([0, 0, 1, 2], 3) == [2, 1, 1]
  {
    var idx: seq<int> := [0, 0, 1, 2];
    assert idx[..3] == [0, 0, 1] && idx[..3][..2] == [0, 0] && [0, 0][..1] == [0] && [0][..0] == [];
    forall c | 0 <= c < 3 ensures Count(idx, c) == Count([0, 0, 1], c) + (if c == 2 then 1 else 0) { }
    forall c | 0 <= c < 3 ensures Count([0, 0, 1], c) == Count([0, 0], c) + (if c == 1 then 1 else 0) { }
    forall c | 0 <= c < 3 ensures Count([0, 0], c) == Count([0], c) + (if c == 0 then 1 else 0) { }
    forall c | 0 <= c < 3 ensures Count([0], c) == (if c == 0 then 1 else 0) { }
  }

  /** The groups of the example, built one sample at a time. */
  lemma ExampleGroupZero()
    ensures CellReadings([0, 0, 1, 2], [0.5, 0.7, 0.3, 0.9], 0) == [0.5, 0.7]
  {
    var idx: seq<int> := [0, 0, 1, 2];
    assert idx[..3] == [0, 0, 1] && [0, 0, 1][..2] == [0, 0] && [0, 0][..1] == [0] && [0][..0] == [];
    assert Positions([0], 0) == [0];
    assert Positions([0, 0], 0) == [0, 1];
    assert Positions([0, 0, 1], 0) == [0, 1];
    assert Positions(idx, 0) == [0, 1];
  }

  lemma ExampleGroupOne()
    ensures CellReadings([0, 0, 1, 2], [0.5, 0.7, 0.3, 0.9], 1) == [0.3]
  {
    var idx: seq<int> := [0, 0, 1, 2];
    assert idx[..3] == [0, 0, 1] && [0, 0, 1][..2] == [0, 0] && [0, 0][..1] == [0] && [0][..0] == [];
    assert Positions([0], 1) == [];
    assert Positions([0, 0], 1) == [];
    assert Positions([0, 0, 1], 1) == [2];
    assert Positions(idx, 1) == [2];
  }

  lemma ExampleGroupTwo()
    ensures CellReadings([0, 0, 1, 2], [0.5, 0.7, 0.3, 0.9], 2) == [0.9]
  {
    var idx: seq<int> := [0, 0, 1, 2];
    assert idx[..3] == [0, 0, 1] && [0, 0, 1][..2] == [0, 0] && [0, 0][..1] == [0] && [0][..0] == [];
    assert Positions([0], 2) == [];
    assert Positions([0, 0], 2) == [];
    assert Positions([0, 0, 1], 2) == [];
    assert Positions(idx, 2) == [3];
  }

  lemma ExampleFirstCell(s: real)
    requires IsStandardDeviation(s, [0.5, 0.7])
    ensures Mean([0.5, 0.7]) == 0.6
    ensures s == 0.1
  {
    var g := [0.5, 0.7];
    assert g[..1] == [0.5] && g[..1][..0] == [];
    assert Sum(g) == 1.2;
    assert SquaredDeviations(g, 0.6) == 0.02;
    assert (s - 0.1) * (s + 0.1) == s * s - 0.01 == 0.0;
    ProductZero(s - 0.1, s + 0.1);
  }

  /** The whole example: counts, means and standard deviations per cell. */
  lemma ThreeCellExample()
    ensures Histogram([0, 0, 1, 2], 3) == [2, 1, 1]
    ensures Mean(CellReadings([0, 0, 1, 2], [0.5, 0.7, 0.3, 0.9], 0)) == 0.6
    ensures Mean(CellReadings([0, 0, 1, 2], [0.5, 0.7, 0.3, 0.9], 1)) == 0.3
    ensures Mean(CellReadings([0, 0, 1, 2], [0.5, 0.7, 0.3, 0.9], 2)) == 0.9
    ensures forall s :: IsStandardDeviation(s, CellReadings([0, 0, 1, 2], [0.5, 0.7, 0.3, 0.9], 0)) ==> s == 0.1
    ensures forall s :: IsStandardDeviation(s, CellReadings([0, 0, 1, 2], [0.5, 0.7, 0.3, 0.9], 1)) ==> s == 0.0
    ensures forall s :: IsStandardDeviation(s, CellReadings([0, 0, 1, 2], [0.5, 0.7, 0.3, 0.9], 2)) ==> s == 0.0
  {
    ExampleCounts();
    ExampleGroupZero();
    ExampleGroupOne();
    ExampleGroupTwo();
    MeanOfConstant([0.3]);
    MeanOfConstant([0.9]);
    forall s | IsStandardDeviation(s, [0.5, 0.7]) ensures s == 0.1 {
      ExampleFirstCell(s);
    }
    forall s | IsStandardDeviation(s, [0.3]) ensures s == 0.0 {
      StdZeroIffConstant([0.3], s);
    }
    forall s | IsStandardDeviation(s, [0.9]) ensures s == 0.0 {
      StdZeroIffConstant([0.9], s);
    }
  }
}
