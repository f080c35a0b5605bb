/** Spoke points (`generate_spoke_points`): points at one distance around a centre,
    at evenly spaced bearings starting from 0. The geodesic projection is geopy's
    `geodesic(meters=distance).destination(centre, bearing)`, taken as a parameter. */
module Geo {
  import opened Common

  /** `(centre, distance in metres, bearing in degrees) -> point`. */
  type Destination = (LatLong, real, real) -> LatLong

  /** The default `num_points` of `generate_spoke_points`. */
  const DefaultSpokeCount: int := 6

  /** `i * (360 / num_points)`. */
  function Bearing(i: int, numPoints: int): real
    requires numPoints != 0
  {
    (i as real) * (360.0 / (numPoints as real))
  }

  /** The points `generate_spoke_points` returns, one per bearing. */
  function SpokePoints(destination: Destination, centre: LatLong, distance: real, numPoints: int): seq<LatLong> {
    seq(RangeLength(numPoints), i requires 0 <= i < RangeLength(numPoints) =>
      destination(centre, distance, Bearing(i, numPoints)))
  }

  /** `generate_spoke_points(center_lat, center_long, distance, num_points=6)`. */
  method GenerateSpokePoints(destination: Destination, centerLat: real, centerLong: real, distance: real,
                             numPoints: int := DefaultSpokeCount)
    returns (points: seq<LatLong>)
    ensures points == SpokePoints(destination, (centerLat, centerLong), distance, numPoints)
    ensures |points| == RangeLength(numPoints)
    ensures forall i | 0 <= i < |points| :: points[i] == destination((centerLat, centerLong), distance, Bearing(i, numPoints))
  {
    points := [];
    var i := 0;
    while i < numPoints
      invariant 0 <= i <= RangeLength(numPoints) && |points| == i
      invariant forall k | 0 <= k < i :: points[k] == destination((centerLat, centerLong), distance, Bearing(k, numPoints))
    {
      var bearing := (i as real) * (360.0 / (numPoints as real));
      assert bearing == Bearing(i, numPoints);
      var newPoint := destination((centerLat, centerLong), distance, bearing);
      points := points + [newPoint];
      i := i + 1;
    }
  }

  /** For a positive count the first bearing is 0, consecutive bearings are
      `360 / num_points` apart, and all of them increase strictly and stay below 360. */
  lemma BearingsSpread(numPoints: int)
    requires numPoints >= 1
    ensures Bearing(0, numPoints) == 0.0
    ensures forall i | 0 <= i < numPoints :: 0.0 <= Bearing(i, numPoints) < 360.0
    ensures forall i | 0 <= i < numPoints - 1 :: Bearing(i + 1, numPoints) - Bearing(i, numPoints) == 360.0 / (numPoints as real)
    ensures forall i, j | 0 <= i < j < numPoints :: Bearing(i, numPoints) < Bearing(j, numPoints)
  {
    var step := 360.0 / (numPoints as real);
    assert step > 0.0;
    assert (numPoints as real) * step == 360.0;
    forall i | 0 <= i < numPoints ensures 0.0 <= Bearing(i, numPoints) < 360.0 {
      assert (i as real) < (numPoints as real);
      assert (i as real) * step < (numPoints as real) * step;
    }
    forall i, j | 0 <= i < j < numPoints ensures Bearing(i, numPoints) < Bearing(j, numPoints) {
      assert (j as real) * step - (i as real) * step == ((j - i) as real) * step;
    }
  }
}
