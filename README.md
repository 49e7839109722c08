# Per-cell freeboard aggregation, modelled in Dafny

The script `practice_plotting/make_a_netCDF_file.py` builds a netCDF file that
compares ICESat sea-ice freeboard with E3SM model output on a mesh of
`CELLCOUNT` cells. Its one piece of real logic is the per-cell aggregator.

- The satellite data come as two parallel sequences: a cell index for every
  photon observation, and the freeboard reading of that observation. A third
  sequence holds one cell index per satellite pass.
- `np.bincount` turns the pass and observation indices into the per-cell
  counts `samplemf` and `sampleof`.
- `meanof` and `stdof` are first filled with the sentinel `FILL_VALUE =
  -99999.0`. A loop over every cell then overwrites the entry of each cell
  that has observations with the mean (`np.mean`) or the population standard
  deviation (`np.std`) of that cell's readings.
- On the model side, `getThickness` divides volume by area per cell, and
  `getFreeboard` applies the linear freeboard formula with the densities of
  water (1026), ice (917) and snow (330).

The project has three modules, one file each:

- `cell_statistics.dfy`, module `CellStatistics`: the specification. It holds
  counting (`Count`, `Histogram`), the `np.where` positions of a cell
  (`Positions`), the gathered readings of a cell (`CellReadings`), a reference
  sum read directly off the paired sequences (`SumWhere`), and `Mean`,
  `Variance` and `IsStandardDeviation`. Beside them are the lemmas that
  connect these definitions.
- `cell_aggregator.dfy`, module `CellAggregator`: the imperative part of the
  script. `BinCount` is a counting loop over an array. `Fill` models the
  `np.full` fill. `MeanByCell` and `StdByCell` are the fill-then-overwrite
  loops over arrays, built from the single-iteration methods `MeanOfCell` and
  `StdOfCell`. `SatelliteVariables` models lines 106-129 in order, on the
  four output arrays.
- `sea_ice.dfy`, module `SeaIce`: `Freeboard` and `Thickness` as functions,
  with lemmas.

Readings are `real` and cell indices are `int`. The netCDF variables are
created with the default `float64` type, so all four output arrays, the
count arrays included, hold `real`s.

`np.std` takes a square root, and Dafny's `real` has none. `StdOfCell`,
`StdByCell` and `SatelliteVariables` therefore take the square root as a
parameter `sqrt: real -> real`. They require that it returns, for every
non-negative argument, a non-negative number whose square is that argument.
Each standard deviation is then specified by `IsStandardDeviation(s, xs)`:
`s >= 0` and `s * s == Variance(xs)`.

Two modelling choices concern the script's own text:

- The docstring of `getFreeboard` (`practice_plotting/make_a_netCDF_file.py`
  lines 148-149) gives the formula in ice and snow heights only, but the
  function takes three parameters, `(heightIce, heightWater, heightSnow)`,
  and never uses `heightWater`. The model follows the code: `Freeboard` keeps
  the parameter, and `FreeboardIgnoresWater` states that it has no effect.
- The mean and standard-deviation loops select readings with
  `np.where(idx == cellIndex)`, which needs no index to be in range. So
  `MeanByCell` and `StdByCell` have no range precondition; only `BinCount`,
  the model of `np.bincount`, has one.

## Model

| member | source | states |
|---|---|---|
| `CellStatistics.Count` | practice_plotting/make_a_netCDF_file.py:106-109 | one `np.bincount` bin: the number of samples of cell `c`, never more than the number of samples |
| `CellStatistics.CountZeroIff` | practice_plotting/make_a_netCDF_file.py:106-109 | a bin is zero exactly when no sample holds its cell |
| `CellStatistics.Histogram` | practice_plotting/make_a_netCDF_file.py:106-109 | the `n` bins of `np.bincount`, one `Count` per cell; `HistogramTotal` proves that they add up to the number of samples |
| `CellStatistics.HistogramTotal` | practice_plotting/make_a_netCDF_file.py:106-109 | when every index lies in `[0, n)`, the `n` bincount bins add up to the number of indices |
| `CellStatistics.CountOutsideRange` | practice_plotting/make_a_netCDF_file.py:106-109 | a cell outside the range of all indices gets a count of zero |
| `CellStatistics.Positions` | practice_plotting/make_a_netCDF_file.py:116 | `np.where(idx == c)[0]` has as many entries as cell `c` has samples, and each entry is an in-range position holding `c` |
| `CellStatistics.PositionsComplete` | practice_plotting/make_a_netCDF_file.py:116 | `np.where` misses no position holding `c`, and lists the positions in increasing order |
| `CellStatistics.CellReadings` | practice_plotting/make_a_netCDF_file.py:118 | the gathered readings of a cell are as many as the cell's count |
| `CellStatistics.CellReadingsBelong` | practice_plotting/make_a_netCDF_file.py:118 | every gathered reading of cell `c` is the reading of some sample whose index is `c` |
| `CellStatistics.CellReadingsSnoc` | practice_plotting/make_a_netCDF_file.py:116-118 | one more sample adds its reading to the end of its own cell's group and leaves every other group unchanged |
| `CellStatistics.CellReadingsSum` | practice_plotting/make_a_netCDF_file.py:116-118 | the sum of a cell's gathered readings equals the reference sum over positions with `idx[j] == c` |
| `CellStatistics.CellMeanIsSumOverCount` | practice_plotting/make_a_netCDF_file.py:111-119 | the mean of a non-empty cell is the sum of its readings divided by its sample count |
| `CellStatistics.MeanBounds` | practice_plotting/make_a_netCDF_file.py:118 | any lower and upper bound on every reading of a group also bounds its mean |
| `CellStatistics.Mean` | practice_plotting/make_a_netCDF_file.py:118 | defines `np.mean` of a non-empty group as its sum over its size; `CellMeanIsSumOverCount` ties it to the reference sum of a cell, and `MeanWithinRange` bounds it by the group's minimum and maximum |
| `CellStatistics.MeanWithinRange` | practice_plotting/make_a_netCDF_file.py:118 | the mean of a group lies between its minimum and its maximum |
| `CellStatistics.CellMeanWithinReadings` | practice_plotting/make_a_netCDF_file.py:116-119 | the mean of a non-empty cell is at least one of that cell's readings and at most another |
| `CellStatistics.MeanOfConstant` | practice_plotting/make_a_netCDF_file.py:118 | a group whose readings are all equal has that reading as its mean |
| `CellStatistics.SquaredDeviations` | practice_plotting/make_a_netCDF_file.py:128 | the squared deviations from a centre are never negative, and are zero exactly when every reading equals the centre |
| `CellStatistics.Variance` | practice_plotting/make_a_netCDF_file.py:128 | the population variance (`ddof = 0`) is non-negative, and is zero exactly when all readings of the group agree |
| `CellStatistics.IsStandardDeviation` | practice_plotting/make_a_netCDF_file.py:128 | defines `np.std` (`ddof = 0`) of a non-empty group as a non-negative number whose square is `Variance`; `StdZeroIffConstant` proves it zero exactly when the readings agree |
| `CellStatistics.SingleSampleVariance` | practice_plotting/make_a_netCDF_file.py:127-128 | a group of one reading has variance zero |
| `CellStatistics.StdZeroIffConstant` | practice_plotting/make_a_netCDF_file.py:127-129 | a standard deviation is zero exactly when the readings agree, so a single-reading cell gets 0, not the sentinel |
| `CellStatistics.ThreeCellExample` | practice_plotting/make_a_netCDF_file.py:106-129 | indices `[0,0,1,2]` with readings `[0.5,0.7,0.3,0.9]` give counts `[2,1,1]`, means `[0.6,0.3,0.9]` and standard deviations `[0.1,0,0]` |
| `CellAggregator.BinCount` | practice_plotting/make_a_netCDF_file.py:106-109 | the counting loop returns one bin per cell, each bin the number of samples of that cell, and the bins add up to the number of samples |
| `CellAggregator.Fill` | practice_plotting/make_a_netCDF_file.py:113 | after `a[:] = np.full(a.shape, v)` every entry is `v` |
| `CellAggregator.MeanOfCell` | practice_plotting/make_a_netCDF_file.py:116-119 | one iteration writes only entry `cell`, and only when the cell has samples, setting it to the mean of the cell's readings |
| `CellAggregator.MeanByCell` | practice_plotting/make_a_netCDF_file.py:113-119 | a cell without samples keeps the sentinel; every other cell holds the sum of its readings over its count, which is the mean of its group |
| `CellAggregator.StdOfCell` | practice_plotting/make_a_netCDF_file.py:126-129 | one iteration writes only entry `cell`, and only when the cell has samples, setting it to the standard deviation of the cell's readings |
| `CellAggregator.StdByCell` | practice_plotting/make_a_netCDF_file.py:123-129 | a cell without samples keeps the sentinel; every other cell holds the population standard deviation of its readings, and a single-reading cell holds exactly 0 |
| `CellAggregator.SatelliteVariables` | practice_plotting/make_a_netCDF_file.py:106-129 | the count arrays hold the bincounts; a cell with observations holds in `meanof` the sum of its readings over `sampleof` (the mean of its group) and in `stdof` the population standard deviation of its readings, exactly 0 for a single reading; `stdof` holds the sentinel exactly on the cells whose `sampleof` is 0; `meanof` holds it on all of those, and, when every reading lies above the sentinel, on no other cell |
| `SeaIce.Freeboard` | practice_plotting/make_a_netCDF_file.py:147-150 | zero ice and zero snow give zero; non-negative heights give a freeboard between 0 and the combined ice and snow height |
| `SeaIce.FreeboardMonotone` | practice_plotting/make_a_netCDF_file.py:19-21 | raising the ice or the snow height never lowers the freeboard, because both density coefficients are positive |
| `SeaIce.FreeboardLinear` | practice_plotting/make_a_netCDF_file.py:150 | the formula distributes over sums of heights and commutes with scaling them |
| `SeaIce.FreeboardIgnoresWater` | practice_plotting/make_a_netCDF_file.py:147-150 | the water-height argument has no effect on the result |
| `SeaIce.FreeboardOfBareIce` | practice_plotting/make_a_netCDF_file.py:150 | one metre of ice and no snow give `(1026 - 917) / 1026` |
| `SeaIce.FreeboardOfBareSnow` | practice_plotting/make_a_netCDF_file.py:150 | one metre of snow and no ice give `(1026 - 330) / 1026` |
| `SeaIce.Thickness` | practice_plotting/make_a_netCDF_file.py:152-154 | for areas that are not zero, each thickness times its cell's area is that cell's volume |
| `SeaIce.FreeboardOfCellHeights` | practice_plotting/make_a_netCDF_file.py:157-158 | the freeboard of the heights derived from ice and snow volumes over one area, times that area, is the freeboard of the volumes |

## Left out

- netCDF output is not modelled. This covers opening, closing and the guarded re-close (lines 29-31 and 174), the `nCells` dimension, the global attributes, and `createVariableForNetCDF` with its `long_name`, `valid_range` and fill-value metadata. These are calls into the netCDF4 library. The output variables are modelled as plain arrays of length `CELLCOUNT`.
- The history string is not modelled. It uses the clock (`datetime.now()`) and the login name (`os.getlogin()`).
- Data loading is not modelled. `loadData`, `reduceToOneDay` and `returnCellIndices` belong to `utility.py`, which is not part of this model. Their results are the input sequences of `SatelliteVariables`.
- The `print` calls and the min/max diagnostics (lines 95-97, 141-143 and 159-170) are not modelled.
- The arrays `effmf`, `effof`, `meanmf` and `stdmf` are declared (lines 68-73 and 80-81) but never filled, so they have no operation to model.
- `practice_plotting/config.py` holds only path strings and plotting constants, so it has no logic to model.
- Floating point is not modelled. Readings are exact reals, so the rounding of `np.mean`, `np.std` and float64 division is not captured.
- `SeaIce.Thickness`: requires a non-zero area, because the script's unmasked division by zero gives a non-finite numpy value, which `real` cannot represent.
- `CellAggregator.BinCount`: requires every index in `[0, n)`, because `np.bincount` rejects negative indices. It always returns `n` bins, so it models `np.bincount(idx, minlength=n)`. The script calls `np.bincount(idx)` (lines 106 and 109), which returns only `max(idx) + 1` bins, and assigns that into a netCDF variable of `CELLCOUNT` entries without checking the lengths. `SatelliteVariables` writes `CELLCOUNT` bins, the missing ones zero. What the script does when the two lengths differ (the slice assignment into the netCDF variable) is not modelled.
- `CellAggregator.MeanByCell`: requires at least as many readings as observation indices. With fewer readings, numpy raises an index error when a selected position has no reading; the model does not capture that error.
- `CellAggregator.StdByCell`: the square root is a parameter, as described above, rather than numpy's own routine. It also requires at least as many readings as observation indices; with fewer readings numpy raises an index error when a selected position has no reading, and the model does not capture that error.
- `CellAggregator.SatelliteVariables`: three gaps against lines 106-129. (1) It requires every pass and observation index in `[0, CELLCOUNT)`; `np.bincount` raises on a negative index, and an index of `CELLCOUNT` or more gives more bins than the netCDF variable holds, and neither failure is modelled. (2) It requires at least as many readings as observation indices; the index error numpy raises otherwise is not modelled. (3) It writes `CELLCOUNT` bins with the missing ones zero, where the script's `np.bincount` returns only `max(idx) + 1` bins and assigns them into a variable of `CELLCOUNT` entries; what that assignment does when the lengths differ is not modelled.
- `SeaIce.Freeboard`: is modelled on scalars. numpy would apply the same formula element by element to arrays, but the script never calls it.
