/** The saturation-aware sampler (`iterate_over_calls`): one nearby-search query
    per point, each point first moved by a noise offset; a response without a
    `places` key is skipped, a response of exactly 20 places marks the point as
    saturated, and any other response writes its places into the accumulator. */
module Sampler {
  import opened Common
  import opened Dates

  /** The most places one nearby-search call returns. */
  const ResultCap: int := 20

  /** The offsets drawn from `np.random.normal` for one point. */
  datatype Offset = Offset(dLat: real, dLong: real)

  /** The offsets for the point at each position of a pass. */
  type Noise = nat -> Offset

  /** The nearby-search call: `None` when the response has no `places` key. */
  type Query = Point -> Option<seq<Place>>

  /** The accumulator and the saturated list, as `iterate_over_calls` returns them. */
  datatype PassState = PassState(restaurants: Catalog, saturated: seq<Point>)

  function Noised(p: Point, off: Offset): Point {
    Point(p.lat + off.dLat, p.long + off.dLong, p.radius)
  }

  /** The point actually queried for position `i`. */
  function QueriedAt(points: seq<Point>, noise: Noise, i: nat): Point
    requires i < |points|
  {
    Noised(points[i], noise(i))
  }

  predicate IsSaturated(response: Option<seq<Place>>) {
    response.Some? && |response.value| == ResultCap
  }

  /** The entry written for one place, with the defaults of `place.get`. */
  function ToEntry(place: Place, date: string): Entry {
    Entry(
      place.displayName,
      match place.address case Some(a) => a case None => "NA",
      match place.rating case Some(r) => r case None => 0.0,
      match place.priceLevel case Some(p) => p case None => "NA",
      Some(date),
      match place.primaryType case Some(t) => t case None => "NA",
      match place.userRatingCount case Some(n) => n case None => 0,
      match place.types case Some(ts) => ts case None => [],
      None)
  }

  /** `restaurants[place['id']] = {...}` for each place in turn. */
  function Record(found: Catalog, places: seq<Place>, date: string): Catalog
    decreases |places|
  {
    if places == [] then found
    else
      var last := places[|places| - 1];
      Record(found, places[..|places| - 1], date)[last.id := ToEntry(last, date)]
  }

  /** What one response does to the pass state. */
  function Visit(st: PassState, queried: Point, response: Option<seq<Place>>, date: string): PassState {
    match response
    case None => st
    case Some(places) =>
      if |places| == ResultCap then st.(saturated := st.saturated + [queried])
      else st.(restaurants := Record(st.restaurants, places, date))
  }

  /** The pass over `points`, starting from the accumulator `found`. */
  function SamplePass(points: seq<Point>, noise: Noise, query: Query, date: string, found: Catalog): PassState
    decreases |points|
  {
    if points == [] then PassState(found, [])
    else
      var k := |points| - 1;
      var q := QueriedAt(points, noise, k);
      Visit(SamplePass(points[..k], noise, query, date, found), q, query(q), date)
  }

  /** `iterate_over_calls(lat_long_pairs, restaurants, ...)`, with the date it reads and
      the noise offsets as parameters. */
  method IterateOverCalls(points: seq<Point>, restaurants: Catalog, noise: Noise, query: Query, today: CalendarDate)
    returns (found: Catalog, saturated: seq<Point>)
    ensures PassState(found, saturated) == SamplePass(points, noise, query, FormatDate(today), restaurants)
  {
    found, saturated := restaurants, [];
    var formattedDate := FormatDate(today);
    for i := 0 to |points|
      invariant PassState(found, saturated) == SamplePass(points[..i], noise, query, formattedDate, restaurants)
    {
      var q := Noised(points[i], noise(i));
      var response := query(q);
      assert points[..i + 1][..i] == points[..i];
      match response {
        case None =>
        case Some(places) =>
          if |places| == ResultCap {
            saturated := saturated + [q];
          } else {
            ghost var before := found;
            for j := 0 to |places|
              invariant found == Record(before, places[..j], formattedDate)
            {
              assert places[..j + 1][..j] == places[..j];
              found := found[places[j].id := ToEntry(places[j], formattedDate)];
            }
            assert places[..|places|] == places;
          }
      }
    }
    assert points[..|points|] == points;
  }

  // ----- What a pass writes into the accumulator -----

  function Ids(places: seq<Place>): set<string> {
    set p | p in places :: p.id
  }

  /** The places a response contributes: all of them, unless there are none or exactly 20. */
  function Recordable(response: Option<seq<Place>>): seq<Place> {
    if response.Some? && |response.value| != ResultCap then response.value else []
  }

  /** The places of every recorded response of a pass, in visiting order. */
  function RecordedPlaces(points: seq<Point>, noise: Noise, query: Query): seq<Place>
    decreases |points|
  {
    if points == [] then []
    else
      var k := |points| - 1;
      RecordedPlaces(points[..k], noise, query) + Recordable(query(QueriedAt(points, noise, k)))
  }

  lemma {:induction false} RecordAppend(found: Catalog, a: seq<Place>, b: seq<Place>, date: string)
    ensures Record(found, a + b, date) == Record(Record(found, a, date), b, date)
    decreases |b|
  {
    if b != [] {
      var n := |b| - 1;
      assert (a + b)[..|a + b| - 1] == a + b[..n];
      RecordAppend(found, a, b[..n], date);
    } else {
      assert a + b == a;
    }
  }

  /** The accumulator after a pass is the starting one with the recorded places
      written in visiting order; saturated responses and responses without
      `places` write nothing, and the date never decides what is written. */
  lemma {:induction false} PassRecords(points: seq<Point>, noise: Noise, query: Query, date: string, found: Catalog)
    ensures SamplePass(points, noise, query, date, found).restaurants
         == Record(found, RecordedPlaces(points, noise, query), date)
    decreases |points|
  {
    if points != [] {
      var k := |points| - 1;
      var q := QueriedAt(points, noise, k);
      PassRecords(points[..k], noise, query, date, found);
      forall i | 0 <= i < k ensures QueriedAt(points[..k], noise, i) == QueriedAt(points, noise, i) {}
      RecordAppend(found, RecordedPlaces(points[..k], noise, query), Recordable(query(q)), date);
    }
  }

  /** The ids after recording are the old ids and the recorded ones. */
  lemma {:induction false} RecordKeys(found: Catalog, places: seq<Place>, date: string)
    ensures Record(found, places, date).Keys == found.Keys + Ids(places)
    decreases |places|
  {
    if places != [] {
      var n := |places| - 1;
      RecordKeys(found, places[..n], date);
      assert places == places[..n] + [places[n]];
      assert Ids(places) == Ids(places[..n]) + {places[n].id};
    }
  }

  /** An id no recorded place carries keeps its old entry. */
  lemma {:induction false} RecordKeepsOthers(found: Catalog, places: seq<Place>, date: string, id: string)
    requires id in found && id !in Ids(places)
    ensures id in Record(found, places, date) && Record(found, places, date)[id] == found[id]
    decreases |places|
  {
    if places != [] {
      var n := |places| - 1;
      assert places[n] in places;
      assert Ids(places[..n]) <= Ids(places) by {
        forall p | p in places[..n] ensures p in places { }
      }
      RecordKeepsOthers(found, places[..n], date, id);
    }
  }

  /** Last write wins: the entry of an id is built from the last place carrying it. */
  lemma {:induction false} RecordLastWins(found: Catalog, places: seq<Place>, date: string, k: nat)
    requires k < |places|
    requires forall j | k < j < |places| :: places[j].id != places[k].id
    ensures places[k].id in Record(found, places, date)
    ensures Record(found, places, date)[places[k].id] == ToEntry(places[k], date)
    decreases |places|
  {
    var n := |places| - 1;
    if k < n {
      RecordLastWins(found, places[..n], date, k);
    }
  }

  /** Every recorded id holds the entry of some place carrying it, stamped with the pass date. */
  lemma {:induction false} RecordObserved(found: Catalog, places: seq<Place>, date: string, id: string)
    requires id in Ids(places)
    ensures id in Record(found, places, date)
    ensures exists k | 0 <= k < |places| :: places[k].id == id && Record(found, places, date)[id] == ToEntry(places[k], date)
    ensures Record(found, places, date)[id].lastSeen == Some(date)
    decreases |places|
  {
    var n := |places| - 1;
    if places[n].id != id {
      assert Ids(places) == Ids(places[..n]) + {places[n].id} by {
        assert places == places[..n] + [places[n]];
      }
      RecordObserved(found, places[..n], date, id);
      var k :| 0 <= k < n && places[..n][k].id == id && Record(found, places[..n], date)[id] == ToEntry(places[..n][k], date);
      assert places[k] == places[..n][k];
    }
  }

  // ----- The saturated list -----

  /** The positions whose response has exactly 20 places, in increasing order. */
  function SaturatedPositions(points: seq<Point>, noise: Noise, query: Query): seq<nat>
    decreases |points|
  {
    if points == [] then []
    else
      var k := |points| - 1;
      SaturatedPositions(points[..k], noise, query) + (if IsSaturated(query(QueriedAt(points, noise, k))) then [k] else [])
  }

  /** The saturated list holds, in input order, exactly the queried (noised) points
      whose response had 20 places, each with its radius unchanged; the starting
      accumulator and the date play no part. */
  lemma {:induction false} SaturatedExactly(points: seq<Point>, noise: Noise, query: Query, date: string, found: Catalog)
    ensures var sat := SamplePass(points, noise, query, date, found).saturated;
            var pos := SaturatedPositions(points, noise, query);
            && |sat| == |pos|
            && (forall k | 0 <= k < |pos| :: pos[k] < |points| && sat[k] == QueriedAt(points, noise, pos[k]))
            && (forall k, l | 0 <= k < l < |pos| :: pos[k] < pos[l])
            && (forall i | 0 <= i < |points| :: i in pos <==> IsSaturated(query(QueriedAt(points, noise, i))))
            && (forall k | 0 <= k < |sat| :: sat[k].radius == points[pos[k]].radius)
    decreases |points|
  {
    if points != [] {
      var k := |points| - 1;
      SaturatedExactly(points[..k], noise, query, date, found);
      forall i | 0 <= i < k ensures QueriedAt(points[..k], noise, i) == QueriedAt(points, noise, i) {}
    }
  }

  /** Every entry a pass writes carries the pass date as `last_seen` and no
      `first_seen`; so a pass that starts from entries with no `first_seen`, each last
      seen on an `earlier` date or on the pass date, ends with only such entries. With
      `earlier == date`, every entry then carries the pass date. */
  lemma PassStamps(points: seq<Point>, noise: Noise, query: Query, date: string, found: Catalog, earlier: string)
    requires forall id | id in found ::
               found[id].firstSeen == None && (found[id].lastSeen == Some(earlier) || found[id].lastSeen == Some(date))
    ensures forall id | id in SamplePass(points, noise, query, date, found).restaurants ::
              && SamplePass(points, noise, query, date, found).restaurants[id].firstSeen == None
              && (|| SamplePass(points, noise, query, date, found).restaurants[id].lastSeen == Some(earlier)
                  || SamplePass(points, noise, query, date, found).restaurants[id].lastSeen == Some(date))
  {
    var places := RecordedPlaces(points, noise, query);
    PassRecords(points, noise, query, date, found);
    RecordKeys(found, places, date);
    forall id | id in Record(found, places, date)
      ensures Record(found, places, date)[id].firstSeen == None
      ensures Record(found, places, date)[id].lastSeen == Some(earlier) || Record(found, places, date)[id].lastSeen == Some(date)
    {
      if id in Ids(places) {
        RecordObserved(found, places, date, id);
      } else {
        RecordKeepsOthers(found, places, date, id);
      }
    }
  }

  /** A pass never drops an id it started with. */
  lemma PassKeepsIds(points: seq<Point>, noise: Noise, query: Query, date: string, found: Catalog)
    ensures found.Keys <= SamplePass(points, noise, query, date, found).restaurants.Keys
  {
    PassRecords(points, noise, query, date, found);
    RecordKeys(found, RecordedPlaces(points, noise, query), date);
  }
}
