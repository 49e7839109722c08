/** The satellite-only variables of make_a_netCDF_file.py: per-cell sample
    counts, and the mean and population standard deviation of the freeboard
    readings of each cell, written into arrays of one entry per mesh cell.
    A cell without readings keeps the fill sentinel. The netCDF variables
    are created with the default `float64` type, so every output array here,
    the counts included, holds `real`s. */
module CellAggregator {
  import opened CellStatistics

  /** Sentinel that marks a cell with no data. */
  const FillValue: real := -99999.0

  /** Number of cells of the mesh, the length of every output variable. */
  const CellCount: nat := 233365

  /** A square-root routine on non-negative reals (numpy's, inside `np.std`). */
  ghost predicate IsSquareRoot(sqrt: real -> real)
  {
    forall x :: 0.0 <= x ==> 0.0 <= sqrt(x) && sqrt(x) * sqrt(x) == x
  }

  /** `np.bincount(idx)` over `n` cells: one bin per cell, each the number of
      samples of that cell, the bins adding up to the number of samples. */
  method BinCount(idx: seq<int>, n: nat) returns (counts: seq<nat>)
    requires forall j :: 0 <= j < |idx| ==> 0 <= idx[j] < n
    ensures |counts| == n
    ensures forall c :: 0 <= c < n ==> counts[c] == Count(idx, c)
    ensures Total(counts) == |idx|
  {
    var bins := new nat[n](_ => 0);
    for j := 0 to |idx|
      invariant forall c :: 0 <= c < n ==> bins[c] == Count(idx[..j], c)
    {
      assert idx[..j + 1][..j] == idx[..j];
      bins[idx[j]] := bins[idx[j]] + 1;
    }
    assert idx[..|idx|] == idx;
    counts := bins[..];
    assert counts == Histogram(idx, n);
    HistogramTotal(idx, n);
  }

  /** `a[:] = np.full(a.shape, v)`: every entry becomes `v`. */
  method Fill(a: array<real>, v: real)
    modifies a
    ensures forall i :: 0 <= i < a.Length ==> a[i] == v
  {
    for i := 0 to a.Length
      invariant forall k :: 0 <= k < i ==> a[k] == v
    {
      a[i] := v;
    }
  }

  /** One iteration of the mean loop: only entry `cell` may change, and it
      becomes the mean of the cell's readings when the cell has any. */
  method MeanOfCell(meanof: array<real>, idx: seq<int>, readings: seq<real>, cell: nat)
    requires |idx| <= |readings|
    requires cell < meanof.Length
    modifies meanof
    ensures forall c :: 0 <= c < meanof.Length && c != cell ==> meanof[c] == old(meanof[c])
    ensures Count(idx, cell) == 0 ==> meanof[cell] == old(meanof[cell])
    ensures Count(idx, cell) > 0 ==> meanof[cell] == Mean(CellReadings(idx, readings, cell))
  {
    var positions := Positions(idx, cell);
    if |positions| > 0 {
      meanof[cell] := Mean(CellReadings(idx, readings, cell));
    }
  }

  /** The `meanof` block: fill with the sentinel, then give every cell with
      readings the sum of its readings over its sample count. */
  method MeanByCell(meanof: array<real>, idx: seq<int>, readings: seq<real>)
    requires |idx| <= |readings|
    modifies meanof
    ensures forall c :: 0 <= c < meanof.Length && Count(idx, c) == 0 ==> meanof[c] == FillValue
    ensures forall c :: 0 <= c < meanof.Length && Count(idx, c) > 0 ==>
      meanof[c] == SumWhere(idx, readings, c) / Count(idx, c) as real
    ensures forall c :: 0 <= c < meanof.Length && Count(idx, c) > 0 ==>
      meanof[c] == Mean(CellReadings(idx, readings, c))
  {
    Fill(meanof, FillValue);
    for cell := 0 to meanof.Length
      invariant forall c :: 0 <= c < cell && Count(idx, c) == 0 ==> meanof[c] == FillValue
      invariant forall c :: 0 <= c < cell && Count(idx, c) > 0 ==>
        meanof[c] == SumWhere(idx, readings, c) / Count(idx, c) as real
      invariant forall c :: 0 <= c < cell && Count(idx, c) > 0 ==>
        meanof[c] == Mean(CellReadings(idx, readings, c))
      invariant forall c :: cell <= c < meanof.Length ==> meanof[c] == FillValue
    {
      MeanOfCell(meanof, idx, readings, cell);
      if Count(idx, cell) > 0 {
        CellMeanIsSumOverCount(idx, readings, cell);
      }
    }
  }

  /** One iteration of the standard-deviation loop: only entry `cell` may
      change, and it becomes a non-negative number whose square is the
      population variance of the cell's readings when the cell has any. */
  method StdOfCell(stdof: array<real>, idx: seq<int>, readings: seq<real>, cell: nat, sqrt: real -> real)
    requires |idx| <= |readings|
    requires cell < stdof.Length
    requires IsSquareRoot(sqrt)
    modifies stdof
    ensures forall c :: 0 <= c < stdof.Length && c != cell ==> stdof[c] == old(stdof[c])
    ensures Count(idx, cell) == 0 ==> stdof[cell] == old(stdof[cell])
    ensures Count(idx, cell) > 0 ==> IsStandardDeviation(stdof[cell], CellReadings(idx, readings, cell))
  {
    var positions := Positions(idx, cell);
    if |positions| > 0 {
      stdof[cell] := sqrt(Variance(CellReadings(idx, readings, cell)));
    }
  }

  /** The `stdof` block: fill with the sentinel, then give every cell with
      readings the population standard deviation of its readings, which is
      zero for a cell of one reading. */
  method StdByCell(stdof: array<real>, idx: seq<int>, readings: seq<real>, sqrt: real -> real)
    requires |idx| <= |readings|
    requires IsSquareRoot(sqrt)
    modifies stdof
    ensures forall c :: 0 <= c < stdof.Length && Count(idx, c) == 0 ==> stdof[c] == FillValue
    ensures forall c :: 0 <= c < stdof.Length && Count(idx, c) > 0 ==>
      IsStandardDeviation(stdof[c], CellReadings(idx, readings, c))
    ensures forall c :: 0 <= c < stdof.Length && Count(idx, c) == 1 ==> stdof[c] == 0.0
  {
    Fill(stdof, FillValue);
    for cell := 0 to stdof.Length
      invariant forall c :: 0 <= c < cell && Count(idx, c) == 0 ==> stdof[c] == FillValue
      invariant forall c :: 0 <= c < cell && Count(idx, c) > 0 ==>
        IsStandardDeviation(stdof[c], CellReadings(idx, readings, c))
      invariant forall c :: 0 <= c < cell && Count(idx, c) == 1 ==> stdof[c] == 0.0
      invariant forall c :: cell <= c < stdof.Length ==> stdof[c] == FillValue
    {
      StdOfCell(stdof, idx, readings, cell, sqrt);
      if Count(idx, cell) == 1 {
        StdZeroIffConstant(CellReadings(idx, readings, cell), stdof[cell]);
      }
    }
  }

  /** Lines 106-129 of the script, in order: the two count variables, then the
      mean and the standard deviation of the observed freeboard. Afterwards a
      cell with observations holds the mean and the population standard
      deviation of its readings (0 for a single reading). The standard
      deviation holds the sentinel exactly on the cells with no observation,
      the mean holds it on all of those, and on no other cell when every
      reading lies above the sentinel. */
  method SatelliteVariables(sampleCells: seq<int>, observationCells: seq<int>, readings: seq<real>,
                            samplemf: array<real>, sampleof: array<real>,
                            meanof: array<real>, stdof: array<real>, sqrt: real -> real)
    requires samplemf.Length == CellCount && sampleof.Length == CellCount
    requires meanof.Length == CellCount && stdof.Length == CellCount
    requires samplemf != sampleof && samplemf != meanof && samplemf != stdof
    requires sampleof != meanof && sampleof != stdof && meanof != stdof
    requires forall j :: 0 <= j < |sampleCells| ==> 0 <= sampleCells[j] < CellCount
    requires forall j :: 0 <= j < |observationCells| ==> 0 <= observationCells[j] < CellCount
    requires |observationCells| <= |readings|
    requires IsSquareRoot(sqrt)
    modifies samplemf, sampleof, meanof, stdof
    ensures forall c :: 0 <= c < CellCount ==> samplemf[c] == Count(sampleCells, c) as real
    ensures forall c :: 0 <= c < CellCount ==> sampleof[c] == Count(observationCells, c) as real
    ensures forall c :: 0 <= c < CellCount ==> (stdof[c] == FillValue <==> sampleof[c] == 0.0)
    ensures forall c :: 0 <= c < CellCount && sampleof[c] == 0.0 ==> meanof[c] == FillValue
    ensures forall c :: 0 <= c < CellCount && sampleof[c] > 0.0 ==>
      meanof[c] == SumWhere(observationCells, readings, c) / sampleof[c]
    ensures forall c :: 0 <= c < CellCount && sampleof[c] > 0.0 ==>
      meanof[c] == Mean(CellReadings(observationCells, readings, c))
    ensures forall c :: 0 <= c < CellCount && sampleof[c] > 0.0 ==>
      IsStandardDeviation(stdof[c], CellReadings(observationCells, readings, c))
    ensures forall c :: 0 <= c < CellCount && sampleof[c] == 1.0 ==> stdof[c] == 0.0
    ensures (forall j :: 0 <= j < |readings| ==> FillValue < readings[j]) ==>
      forall c :: 0 <= c < CellCount ==> (meanof[c] == FillValue <==> sampleof[c] == 0.0)
  {
    var passes := BinCount(sampleCells, CellCount);
    forall c | 0 <= c < CellCount {
      samplemf[c] := passes[c] as real;
    }
    var photons := BinCount(observationCells, CellCount);
    forall c | 0 <= c < CellCount {
      sampleof[c] := photons[c] as real;
    }
    MeanByCell(meanof, observationCells, readings);
    StdByCell(stdof, observationCells, readings, sqrt);
    forall c | 0 <= c < CellCount
      ensures stdof[c] == FillValue <==> sampleof[c] == 0.0
    {
      if Count(observationCells, c) > 0 {
        assert IsStandardDeviation(stdof[c], CellReadings(observationCells, readings, c));
      }
    }
    if forall j :: 0 <= j < |readings| ==> FillValue < readings[j] {
      forall c | 0 <= c < CellCount && sampleof[c] > 0.0
        ensures meanof[c] != FillValue
      {
        CellMeanWithinReadings(observationCells, readings, c);
      }
    }
  }
}
