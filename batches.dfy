/** The batch driver (`find_restaurants_in_batches`): cap the point list by random
    subsampling, run one sampling pass, turn every saturated point into spoke points
    100 m away with a halved radius, run exactly one more pass over those, and merge
    what was found into the catalog. The accumulator is threaded from the first pass
    into the second and then into the merge. */
module Batches {
  import opened Common
  import opened Dates
  import opened Sampler
  import opened Geo
  import opened CatalogMerge

  /** Spoke points are placed 100 metres from the saturated point. */
  const SpokeDistance: real := 100.0

  /** `max(1, int(radius_val / 2))`: Python's `int` truncates toward zero. */
  function HalvedRadius(radius: int): (r: int)
    ensures r >= 1
    ensures radius >= 1 ==> r <= radius
    ensures radius <= 1 ==> r == 1
    ensures radius >= 2 ==> 2 * r <= radius <= 2 * r + 1
  {
    var half := if radius >= 0 then radius / 2 else -((-radius) / 2);
    if half > 1 then half else 1
  }

  /** The refined point for spoke `m` of a saturated point. */
  function SpokeAt(destination: Destination, p: Point, m: int): Point
    requires 0 <= m < DefaultSpokeCount
  {
    var q := destination((p.lat, p.long), SpokeDistance, Bearing(m, DefaultSpokeCount));
    Point(q.0, q.1, HalvedRadius(p.radius))
  }

  /** `points_with_radius` for one saturated point: its six spokes, in bearing order. */
  function SpokesFor(destination: Destination, p: Point): seq<Point> {
    seq(DefaultSpokeCount, m requires 0 <= m < DefaultSpokeCount => SpokeAt(destination, p, m))
  }

  /** `points_list` after the loop over the saturated list. */
  function Refine(destination: Destination, saturated: seq<Point>): seq<Point>
    decreases |saturated|
  {
    if saturated == [] then []
    else
      var n := |saturated| - 1;
      Refine(destination, saturated[..n]) + SpokesFor(destination, saturated[n])
  }

  /** The loop of `find_restaurants_in_batches` that builds `points_list` with `extend`. */
  method ExpandSaturated(destination: Destination, saturated: seq<Point>) returns (pointsList: seq<Point>)
    ensures pointsList == Refine(destination, saturated)
  {
    pointsList := [];
    for i := 0 to |saturated|
      invariant pointsList == Refine(destination, saturated[..i])
    {
      var p := saturated[i];
      var points := GenerateSpokePoints(destination, p.lat, p.long, SpokeDistance);
      var newRadius := HalvedRadius(p.radius);
      var pointsWithRadius := seq(|points|, m requires 0 <= m < |points| => Point(points[m].0, points[m].1, newRadius));
      assert pointsWithRadius == SpokesFor(destination, p);
      assert saturated[..i + 1][..i] == saturated[..i];
      pointsList := pointsList + pointsWithRadius;
    }
    assert saturated[..|saturated|] == saturated;
  }

  /** `points_list` holds six spoke points per saturated point, in saturated-list
      order: spoke `m` of the `k`-th saturated point sits at `6 * k + m`, is the
      destination 100 m from that point's centre at bearing `m * 60`, and carries
      the halved radius. */
  lemma {:induction false} RefineShape(destination: Destination, saturated: seq<Point>)
    ensures |Refine(destination, saturated)| == DefaultSpokeCount * |saturated|
    ensures forall k, m | 0 <= k < |saturated| && 0 <= m < DefaultSpokeCount ::
              Refine(destination, saturated)[DefaultSpokeCount * k + m] == SpokeAt(destination, saturated[k], m)
    decreases |saturated|
  {
    if saturated != [] {
      var n := |saturated| - 1;
      var before := Refine(destination, saturated[..n]);
      RefineShape(destination, saturated[..n]);
      forall k, m | 0 <= k < |saturated| && 0 <= m < DefaultSpokeCount
        ensures Refine(destination, saturated)[DefaultSpokeCount * k + m] == SpokeAt(destination, saturated[k], m)
      {
        if k < n {
          assert saturated[..n][k] == saturated[k];
          assert DefaultSpokeCount * k + m < |before|;
        } else {
          assert Refine(destination, saturated)[DefaultSpokeCount * k + m] == SpokesFor(destination, saturated[n])[m];
        }
      }
    }
  }

  // ----- The point cap -----

  /** What `random.sample(range(n), size)` returns: `size` distinct positions below `n`. */
  predicate IsSample(pick: seq<int>, n: int, size: int) {
    |pick| == size && Distinct(pick) && forall k | 0 <= k < |pick| :: 0 <= pick[k] < n
  }

  function Select(points: seq<Point>, pick: seq<int>): seq<Point>
    requires forall k | 0 <= k < |pick| :: 0 <= pick[k] < |points|
  {
    seq(|pick|, k requires 0 <= k < |pick| => points[pick[k]])
  }

  /** `latlong_list_processed`: the input when it fits the limit, otherwise the
      points at the sampled positions; `random.sample` rejects a negative size. */
  function LimitPoints(points: seq<Point>, limit: int, pick: seq<int>): Result<seq<Point>>
    requires 0 <= limit < |points| ==> IsSample(pick, |points|, limit)
  {
    if |points| > limit then
      if limit < 0 then Err(ValueError) else Ok(Select(points, pick))
    else Ok(points)
  }

  /** Selecting around position `k` of the pick list. */
  lemma SelectAround(points: seq<Point>, pick: seq<int>, k: int)
    requires forall i | 0 <= i < |pick| :: 0 <= pick[i] < |points|
    requires 0 <= k < |pick|
    ensures Select(points, pick) == Select(points, pick[..k]) + [points[pick[k]]] + Select(points, pick[k + 1..])
    ensures Select(points, pick[..k] + pick[k + 1..]) == Select(points, pick[..k]) + Select(points, pick[k + 1..])
  {
  }

  /** Positions below `|init|` select the same points from `init` and from any extension of it. */
  lemma SelectPrefix(init: seq<Point>, more: seq<Point>, pick: seq<int>)
    requires forall i | 0 <= i < |pick| :: 0 <= pick[i] < |init|
    ensures Select(init + more, pick) == Select(init, pick)
  {
  }

  /** Taking out the entry at `k` keeps a pick list of distinct positions distinct,
      and leaves only positions other than `pick[k]`. */
  lemma RemovePick(pick: seq<int>, k: int, n: int)
    requires IsSample(pick, n + 1, |pick|) && 0 <= k < |pick| && pick[k] == n
    ensures IsSample(pick[..k] + pick[k + 1..], n, |pick| - 1)
  {
    var rest := pick[..k] + pick[k + 1..];
    forall i, j | 0 <= i < j < |rest| ensures rest[i] != rest[j] {
      var i', j' := if i < k then i else i + 1, if j < k then j else j + 1;
      assert rest[i] == pick[i'] && rest[j] == pick[j'];
    }
    forall i | 0 <= i < |rest| ensures 0 <= rest[i] < n {
      var i' := if i < k then i else i + 1;
      assert rest[i] == pick[i'] && i' != k;
    }
  }

  /** Distinct positions never select a point more often than the input holds it. */
  lemma {:induction false} SelectSubMultiset(points: seq<Point>, pick: seq<int>)
    requires IsSample(pick, |points|, |pick|)
    ensures multiset(Select(points, pick)) <= multiset(points)
    decreases |points|
  {
    if pick == [] {
      assert Select(points, pick) == [];
    } else {
      assert 0 <= pick[0] < |points|;
      var n := |points| - 1;
      var init := points[..n];
      assert points == init + [points[n]];
      if k :| 0 <= k < |pick| && pick[k] == n {
        var rest := pick[..k] + pick[k + 1..];
        RemovePick(pick, k, n);
        SelectSubMultiset(init, rest);
        SelectAround(points, pick, k);
        SelectPrefix(init, [points[n]], rest);
        assert multiset(Select(points, pick)) == multiset(Select(points, rest)) + multiset{points[n]};
      } else {
        forall i | 0 <= i < |pick| ensures 0 <= pick[i] < n { }
        SelectSubMultiset(init, pick);
        SelectPrefix(init, [points[n]], pick);
      }
    }
  }

  /** A non-negative limit leaves `min(n, limit)` points: the input itself, in order,
      when it fits, otherwise points drawn from distinct positions, so never a point
      more often than the input holds it. A negative limit is a ValueError. */
  lemma LimitPointsShape(points: seq<Point>, limit: int, pick: seq<int>)
    requires 0 <= limit < |points| ==> IsSample(pick, |points|, limit)
    ensures LimitPoints(points, limit, pick).Err? <==> limit < 0
    ensures limit >= 0 ==>
      var processed := LimitPoints(points, limit, pick).value;
      && |processed| == (if |points| <= limit then |points| else limit)
      && multiset(processed) <= multiset(points)
      && (|points| <= limit ==> processed == points)
  {
    if 0 <= limit < |points| {
      SelectSubMultiset(points, pick);
    }
  }

  // ----- The whole run -----

  /** The dictionary both passes leave: the first pass starts from an empty one and
      stamps with `date1`; the second, run only when some point saturated, continues
      from the first's and stamps with `date2`. Each `iterate_over_calls` reads the
      clock itself, so the two dates differ when a run crosses midnight. */
  function Collected(processed: seq<Point>, noise1: Noise, noise2: Noise, query: Query,
                     destination: Destination, date1: string, date2: string): Catalog
  {
    var first := SamplePass(processed, noise1, query, date1, map[]);
    var pointsList := Refine(destination, first.saturated);
    if pointsList != [] then SamplePass(pointsList, noise2, query, date2, first.restaurants).restaurants
    else first.restaurants
  }

  /** What `find_restaurants_in_batches` hands on: the returned `restaurants`
      (aliased by the merge), the full catalog and the snapshot it writes. */
  datatype BatchOutcome = BatchOutcome(restaurants: Catalog, catalog: Catalog, snapshot: Catalog)

  /** The run, with `today` the clock read of the first pass and `today2` that of the
      second (unused when there is no second pass). */
  function Batch(points: seq<Point>, limit: int, pick: seq<int>, noise1: Noise, noise2: Noise, query: Query,
                 destination: Destination, today: CalendarDate, today2: CalendarDate, stored: Catalog): Result<BatchOutcome>
    requires 0 <= limit < |points| ==> IsSample(pick, |points|, limit)
  {
    match LimitPoints(points, limit, pick)
    case Err(e) => Err(e)
    case Ok(processed) =>
      var merged := Merge(Collected(processed, noise1, noise2, query, destination, FormatDate(today), FormatDate(today2)), stored);
      Ok(BatchOutcome(merged.newData, merged.combined, merged.newRestaurants))
  }

  /** `find_restaurants_in_batches`, with the sampled positions, both passes' noise and
      clock reads, the query, the geodesic projection and the old catalog as
      parameters. The second pass's saturated list is dropped. */
  method FindRestaurantsInBatches(points: seq<Point>, limit: int, pick: seq<int>, noise1: Noise, noise2: Noise,
                                  query: Query, destination: Destination, today: CalendarDate, today2: CalendarDate,
                                  stored: Catalog)
    returns (r: Result<BatchOutcome>)
    requires 0 <= limit < |points| ==> IsSample(pick, |points|, limit)
    ensures r == Batch(points, limit, pick, noise1, noise2, query, destination, today, today2, stored)
  {
    var processed: seq<Point>;
    if |points| > limit {
      if limit < 0 {
        return Err(ValueError);
      }
      processed := seq(limit, k requires 0 <= k < limit => points[pick[k]]);
    } else {
      processed := points;
    }
    var restaurants, saturated := IterateOverCalls(processed, map[], noise1, query, today);
    var pointsList := ExpandSaturated(destination, saturated);
    if pointsList != [] {
      var discarded;
      restaurants, discarded := IterateOverCalls(pointsList, restaurants, noise2, query, today2);
    }
    assert restaurants == Collected(processed, noise1, noise2, query, destination, FormatDate(today), FormatDate(today2));
    CollectedKeepsFirstPass(processed, noise1, noise2, query, destination, FormatDate(today), FormatDate(today2));
    var updated := UpdateCatalog(restaurants, stored);
    var merged := updated.value;
    return Ok(BatchOutcome(merged.newData, merged.combined, merged.newRestaurants));
  }

  /** The second pass runs exactly when some point of the first pass saturated. */
  lemma SecondPassOnSaturation(destination: Destination, saturated: seq<Point>)
    ensures Refine(destination, saturated) != [] <==> saturated != []
  {
    RefineShape(destination, saturated);
  }

  /** The second pass starts from the first pass's dictionary, so no id found in the
      first pass is lost; every entry has no `first_seen` and was last seen on the
      first pass's date or on the second's. */
  lemma CollectedKeepsFirstPass(processed: seq<Point>, noise1: Noise, noise2: Noise, query: Query,
                                destination: Destination, date1: string, date2: string)
    ensures SamplePass(processed, noise1, query, date1, map[]).restaurants.Keys
            <= Collected(processed, noise1, noise2, query, destination, date1, date2).Keys
    ensures forall id | id in Collected(processed, noise1, noise2, query, destination, date1, date2) ::
              && Collected(processed, noise1, noise2, query, destination, date1, date2)[id].firstSeen == None
              && (|| Collected(processed, noise1, noise2, query, destination, date1, date2)[id].lastSeen == Some(date1)
                  || Collected(processed, noise1, noise2, query, destination, date1, date2)[id].lastSeen == Some(date2))
  {
    var empty: Catalog := map[];
    var first := SamplePass(processed, noise1, query, date1, empty);
    PassStamps(processed, noise1, query, date1, empty, date2);
    var pointsList := Refine(destination, first.saturated);
    if pointsList != [] {
      PassKeepsIds(pointsList, noise2, query, date2, first.restaurants);
      PassStamps(pointsList, noise2, query, date2, first.restaurants, date1);
    }
  }

  /** A non-negative limit always yields an outcome: the returned dictionary is the
      collected one, so it holds every id of the first pass; the catalog written back
      holds the old ids and the collected ones, and the snapshot exactly the collected
      ids the old catalog lacked. A negative limit is a ValueError. */
  lemma BatchKeys(points: seq<Point>, limit: int, pick: seq<int>, noise1: Noise, noise2: Noise,
                  query: Query, destination: Destination, today: CalendarDate, today2: CalendarDate, stored: Catalog)
    requires 0 <= limit < |points| ==> IsSample(pick, |points|, limit)
    ensures limit < 0 ==> Batch(points, limit, pick, noise1, noise2, query, destination, today, today2, stored) == Err(ValueError)
    ensures limit >= 0 ==>
      var r := Batch(points, limit, pick, noise1, noise2, query, destination, today, today2, stored);
      var processed := LimitPoints(points, limit, pick).value;
      && r.Ok?
      && r.value.restaurants.Keys == Collected(processed, noise1, noise2, query, destination, FormatDate(today), FormatDate(today2)).Keys
      && SamplePass(processed, noise1, query, FormatDate(today), map[]).restaurants.Keys <= r.value.restaurants.Keys
      && r.value.catalog.Keys == stored.Keys + r.value.restaurants.Keys
      && r.value.snapshot.Keys == r.value.restaurants.Keys - stored.Keys
  {
    LimitPointsShape(points, limit, pick);
    if limit >= 0 {
      var processed := LimitPoints(points, limit, pick).value;
      var found := Collected(processed, noise1, noise2, query, destination, FormatDate(today), FormatDate(today2));
      CollectedKeepsFirstPass(processed, noise1, noise2, query, destination, FormatDate(today), FormatDate(today2));
      MergeKeys(found, stored);
    }
  }

  /** Because the merge shares the dictionaries, the returned entry for an id new to
      the catalog is the snapshot's entry and now carries `first_seen` equal to its
      `last_seen`, while the entries for known ids still have no `first_seen`. Every
      `last_seen` is one of the two passes' dates, so when both passes run on one day
      every new id is first seen on that day. */
  lemma BatchStamps(points: seq<Point>, limit: int, pick: seq<int>, noise1: Noise, noise2: Noise,
                    query: Query, destination: Destination, today: CalendarDate, today2: CalendarDate, stored: Catalog)
    requires 0 <= limit < |points| ==> IsSample(pick, |points|, limit)
    requires limit >= 0
    ensures Batch(points, limit, pick, noise1, noise2, query, destination, today, today2, stored).Ok?
    ensures forall id | id in Batch(points, limit, pick, noise1, noise2, query, destination, today, today2, stored).value.restaurants ::
              var r := Batch(points, limit, pick, noise1, noise2, query, destination, today, today2, stored).value;
              && (r.restaurants[id].lastSeen == Some(FormatDate(today)) || r.restaurants[id].lastSeen == Some(FormatDate(today2)))
              && (id !in stored ==> r.restaurants[id].firstSeen == r.restaurants[id].lastSeen
                                    && r.snapshot[id] == r.restaurants[id])
              && (id !in stored && today == today2 ==> r.restaurants[id].firstSeen == Some(FormatDate(today)))
              && (id in stored ==> r.restaurants[id].firstSeen == None)
  {
    var processed := LimitPoints(points, limit, pick).value;
    CollectedKeepsFirstPass(processed, noise1, noise2, query, destination, FormatDate(today), FormatDate(today2));
  }
}
