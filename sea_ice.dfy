/** The two closed-form formulas of make_a_netCDF_file.py for the model
    side: freeboard from ice and snow heights, and cell thickness from a
    volume and an area. The densities are whole numbers in kg/m^3 and the
    division is true division, so the formulas are stated over `real`. */
module SeaIce {

  const DensityWater: int := 1026
  const DensityIce: int := 917
  const DensitySnow: int := 330

  /** `getFreeboard`: hf = hi (pw - pi) / pw + hs (pw - ps) / pw. The water
      height is accepted and ignored, as in the script. For non-negative
      heights the freeboard is non-negative and never exceeds the combined
      height of ice and snow; with neither ice nor snow it is zero. */
  function Freeboard(heightIce: real, heightWater: real, heightSnow: real): (hf: real)
    ensures heightIce == 0.0 && heightSnow == 0.0 ==> hf == 0.0
    ensures 0.0 <= heightIce && 0.0 <= heightSnow ==> 0.0 <= hf <= heightIce + heightSnow
  {
    heightIce * (DensityWater - DensityIce) as real / DensityWater as real
      + heightSnow * (DensityWater - DensitySnow) as real / DensityWater as real
  }

  /** More ice or more snow never lowers the freeboard: both coefficients
      are positive because water is denser than ice and than snow. */
  lemma FreeboardMonotone(ice1: real, snow1: real, ice2: real, snow2: real, water: real)
    requires ice1 <= ice2 && snow1 <= snow2
    ensures Freeboard(ice1, water, snow1) <= Freeboard(ice2, water, snow2)
  {
  }

  /** The formula is linear in the two heights: it distributes over sums of
      heights and commutes with scaling them. */
  lemma FreeboardLinear(ice1: real, snow1: real, ice2: real, snow2: real, k: real, water: real)
    ensures Freeboard(ice1 + ice2, water, snow1 + snow2)
      == Freeboard(ice1, water, snow1) + Freeboard(ice2, water, snow2)
    ensures Freeboard(k * ice1, water, k * snow1) == k * Freeboard(ice1, water, snow1)
  {
  }

  /** The water height has no effect on the result. */
  lemma FreeboardIgnoresWater(ice: real, snow: real, water1: real, water2: real)
    ensures Freeboard(ice, water1, snow) == Freeboard(ice, water2, snow)
  {
  }

  /** One metre of bare ice gives a freeboard of (1026 - 917) / 1026 metres. */
  lemma FreeboardOfBareIce(water: real)
    ensures Freeboard(1.0, water, 0.0) == 109.0 / 1026.0
  {
  }

  /** One metre of snow alone gives a freeboard of (1026 - 330) / 1026 metres. */
  lemma FreeboardOfBareSnow(water: real)
    ensures Freeboard(0.0, water, 1.0) == 696.0 / 1026.0
  {
  }

  /** `getThickness`: element-wise volume over area. Each thickness times its
      cell's area gives back the cell's volume. A zero area is excluded: the
      script does not mask it, and numpy yields a non-finite value there. */
  function Thickness(volume: seq<real>, area: seq<real>): (h: seq<real>)
    requires |volume| == |area|
    requires forall i :: 0 <= i < |area| ==> area[i] != 0.0
    ensures |h| == |volume|
    ensures forall i :: 0 <= i < |h| ==> h[i] * area[i] == volume[i]
  {
    seq(|volume|, i requires 0 <= i < |volume| => volume[i] / area[i])
  }

  /** The freeboard of the heights the script derives for one cell (lines
      157-158: ice and snow volume over the same ice area) equals the
      freeboard of the volumes spread over that area. */
  lemma FreeboardOfCellHeights(iceVolume: seq<real>, snowVolume: seq<real>, area: seq<real>,
                               water: real, i: nat)
    requires |iceVolume| == |area| && |snowVolume| == |area|
    requires forall j :: 0 <= j < |area| ==> area[j] != 0.0
    requires i < |area|
    ensures Freeboard(Thickness(iceVolume, area)[i], water, Thickness(snowVolume, area)[i]) * area[i]
      == Freeboard(iceVolume[i], water, snowVolume[i])
  {
  }
}
