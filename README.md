# Restaurant finder: sampling, refinement and catalog merge, in Dafny

This project models the core of a restaurant finder. The finder runs a
nearby-search query at each point of a list, after moving the point by a small
random offset. A response of exactly 20 places (the API's cap) marks the point
as *saturated*. Each saturated point is then re-queried once, as six *spoke*
points 100 m away with half the radius. Everything found is merged into a
persisted catalog keyed by place id, which records when each place was first and
last seen. A separate job drops catalog entries last seen before a cutoff date.
The search points come from a rectangular grid, whose two corners are read from
texts such as `"(51.5,-0.1)"`, or from rounded and deduplicated CSV rows.

Modules, one per part of the source:

- `Common` (`common.dfy`) — search points, place records, catalog entries, and `Option`/`Result` for missing keys and raised exceptions.
- `Dates` (`dates.dfy`) — `strftime("%Y-%m-%d")`, `strptime` for that format, and Python's string order.
- `Sampler` (`sampler.dfy`) — `iterate_over_calls`.
- `CatalogMerge` (`merge.dfy`) — the dictionary logic of `update_json_and_save`.
- `Geo` (`geo.dfy`) — `generate_spoke_points`.
- `Batches` (`batches.dfy`) — `find_restaurants_in_batches`: the point cap, both passes, spoke expansion, and the merge call.
- `LatLongGrid` (`grid.dfy`) — `build_lat_long_grid`.
- `CoordinateInput` (`coordinates.dfy`) — the round-and-dedup step of `get_latlong_from_bucket`, and `string_to_tuple`, which reads the grid's corner texts.
- `Retention` (`retention.dfy`) — the filter loop of `delete_old_entries`.

The code changes state step by step in these places:

- the sampling loop
- the merge loop
- spoke generation
- the batch driver
- the grid loops
- the retention loop

Each of these is a method whose postcondition ties its result to a
specification function: `SamplePass`, `Merge`, `SpokePoints`, `Batch`, `Grid`,
or `Retained`. The properties the program relies on are proved as lemmas about
those functions. The dictionaries the Python code mutates are threaded through
as values, so the accumulator passes explicitly from the first pass to the
second and then into the merge.

External inputs are parameters:

- The nearby-search call is a function from a point to an optional list of places. `None` means the response has no `places` key.
- The Gaussian noise is an arbitrary offset per position.
- `random.sample` is an arbitrary list of distinct positions.
- geopy's geodesic projection, `np.round` and `float()` are functions passed in.
- `datetime.today()` is read at the start of each `iterate_over_calls` call, so each pass takes its own calendar date as a parameter. The driver passes two, `today` and `today2`, which differ when a run crosses midnight.

Behaviour of the code worth noting:

- A response of exactly 20 places records none of them; only the point is kept for refinement (`restaurant_finder/data_processing.py:41-45`). Only responses with another count write to the dictionary.
- The old catalog is read without a not-found case, so a missing catalog is not handled.
- `generate_spoke_points` defaults to 6 spokes, while its docstring says 8 (`restaurant_finder/geo_functions.py:7`, `:15`).
- A response that is not JSON makes `send_request` raise; nothing turns it into an empty result.
- An entry handed to the merge without `last_seen` raises KeyError (`restaurant_finder/data_processing.py:158`, `:169`). The finder itself always stamps the entries it collects, so its own run never takes that path.

## Model

| member | source | states |
|---|---|---|
| Sampler.IterateOverCalls | restaurant_finder/data_processing.py:17-60 | The loop leaves exactly the accumulator and saturated list of `SamplePass`: one noised query per point, in order. A response without `places` changes nothing. A 20-place response only appends the queried point. Any other response writes its places. |
| Sampler.PassRecords | restaurant_finder/data_processing.py:38-58 | After a pass, the dictionary is the starting one with the places of the recorded responses written in visiting order. Saturated responses and responses without `places` write nothing. |
| Sampler.RecordKeys | restaurant_finder/data_processing.py:48-49 | After writing places, the ids are the old ids together with the written ones. |
| Sampler.RecordKeepsOthers | restaurant_finder/data_processing.py:48-49 | An id that no written place carries keeps its old entry unchanged. |
| Sampler.RecordLastWins | restaurant_finder/data_processing.py:48-58 | When an id occurs several times, its entry is built from the last place carrying it. |
| Sampler.RecordObserved | restaurant_finder/data_processing.py:49-58 | Every written id holds the entry built from some place with that id, using the defaults for absent fields (`"NA"`, 0, `[]`), and has `last_seen` equal to the pass date. |
| Sampler.SaturatedExactly | restaurant_finder/data_processing.py:30-45 | The saturated list holds, in input order, exactly the noised points whose response had 20 places. Each keeps its radius. The list does not depend on the starting dictionary or the date. |
| Sampler.PassStamps | restaurant_finder/data_processing.py:24-58 | Entries a pass writes carry the pass date and no `first_seen`. So a pass that starts from entries with no `first_seen`, each last seen on an earlier date or the pass date, ends with only such entries. |
| Sampler.PassKeepsIds | restaurant_finder/data_processing.py:17-60 | A pass never drops an id of the dictionary it was given. |
| CatalogMerge.UpdateCatalog | restaurant_finder/data_processing.py:149-187 | The merge loop, the copy and the `update` raise KeyError exactly when some observed entry has no `last_seen`. Otherwise they produce exactly `Merge`: the combined catalog, the snapshot of new entries, and the caller's dictionary as aliasing leaves it. |
| CatalogMerge.MergeKeys | restaurant_finder/data_processing.py:152-187 | The combined catalog's ids are the old ids together with the observed ones. The snapshot's ids are exactly the observed ids absent from the old catalog. |
| CatalogMerge.NewEntriesFirstSighting | restaurant_finder/data_processing.py:152-158 | A new id enters the snapshot and the catalog as observed, plus `first_seen == last_seen`. |
| CatalogMerge.KnownEntriesRefreshed | restaurant_finder/data_processing.py:161-175 | A known id takes the seven observed fields, keeps its `first_seen` and `displayName`, and is not in the snapshot. |
| CatalogMerge.OldEntriesSurvive | restaurant_finder/data_processing.py:184-187 | The snapshot's ids are disjoint from the old ids, so the `update` never replaces an old entry. Unobserved old entries are unchanged, and no `first_seen` moves. |
| CatalogMerge.MergeIdempotent | restaurant_finder/data_processing.py:149-187 | Merging the same observations into the merged catalog changes nothing and reports no new id. |
| Geo.GenerateSpokePoints | restaurant_finder/geo_functions.py:7-29 | Returns `max(0, num_points)` points (none for 0, with no division). Point `i` is the projection from the same centre and distance at bearing `i * (360 / num_points)`. The result is exactly `SpokePoints`, which `BearingsSpread` and `RefineShape` describe. |
| Geo.BearingsSpread | restaurant_finder/geo_functions.py:21-22 | For at least one spoke: the first bearing is 0, bearings are `360 / num_points` apart, strictly increasing, and below 360. |
| Batches.HalvedRadius | restaurant_finder/main.py:58 | `max(1, int(r / 2))` is exactly 1 when `r <= 1` (negative radii included). It is at most `r` when `r >= 1`, and it is `r // 2` (`2h <= r <= 2h + 1`) when `r >= 2`. |
| Batches.ExpandSaturated | restaurant_finder/main.py:53-60 | The `extend` loop builds exactly `Refine`: the spoke lists of the saturated points, concatenated in saturated-list order. |
| Batches.RefineShape | restaurant_finder/main.py:54-60 | `points_list` has six points per saturated point. Spoke `m` of the `k`-th saturated point is at `6k + m`: the projection 100 m from that point at bearing `60m`, with the halved radius. |
| Batches.SelectSubMultiset | restaurant_finder/main.py:37-38 | Points taken at distinct sampled positions never include a point more often than the input does. |
| Batches.LimitPointsShape | restaurant_finder/main.py:32-40 | A negative limit raises ValueError (`random.sample`). Otherwise the processed list has `min(n, limit)` points drawn from the input. It is the input itself, in order, when `n <= limit`. |
| Batches.FindRestaurantsInBatches | restaurant_finder/main.py:10-73 | The driver computes exactly `Batch`: cap, first pass from an empty dictionary with its own clock read, spoke expansion, a second pass with a second clock read only when there are spoke points (its saturated list dropped), then the merge. |
| Batches.SecondPassOnSaturation | restaurant_finder/main.py:62-69 | There are spoke points, and so a second pass, exactly when the first pass saturated some point. |
| Batches.CollectedKeepsFirstPass | restaurant_finder/main.py:46-66 | The second pass continues from the first pass's dictionary, so every id found first is kept. Before the merge, every entry has no `first_seen` and was last seen on the first pass's date or the second's. |
| Batches.BatchKeys | restaurant_finder/main.py:32-73 | With a non-negative limit, the returned dictionary holds the collected ids (so all first-pass ids). The written catalog holds old and collected ids. The snapshot holds the collected ids new to the catalog. |
| Batches.BatchStamps | restaurant_finder/main.py:62-73 | Every returned entry was last seen on one of the two pass dates. Because the merge shares the dictionaries, a returned entry for an id new to the catalog is the snapshot's entry, with `first_seen` equal to its `last_seen`; when both passes run on one day that is the run date. Entries for known ids have no `first_seen`. |
| Dates.ParseFormatted | restaurant_finder/data_processing.py:24-25 | Reading a stamp written with `strftime("%Y-%m-%d")` back with `strptime` gives the same date. |
| Dates.FormattedOrder | restaurant_finder/data_processing.py:24-25 | Two stamps in that format compare as strings exactly as their dates compare in time. |
| Retention.DeleteOldEntries | clean_restaurant_list/main.py:23-37 | A cutoff that is not a date raises ValueError before anything else. An unreadable stamp raises the KeyError or ValueError of an entry that has one. Otherwise it keeps exactly the entries last seen on or after the cutoff (so one dated on the cutoff), unchanged; that result is `Retained`, the filter the two lemmas below are about. |
| Retention.RetainedIdempotent | clean_restaurant_list/main.py:33-37 | Filtering twice with one cutoff gives the result of filtering once. |
| Retention.LaterCutoffKeepsLess | clean_restaurant_list/main.py:36 | A later cutoff keeps a subset of what an earlier one keeps. |
| Retention.RetainByText | clean_restaurant_list/main.py:35-36 | For stamps written by the finder, comparing the parsed dates decides the same as Python's `>=` on the texts. |
| LatLongGrid.BuildLatLongGrid | run_restaurant_finder/aux_functions.py:8-21 | Zero steps raises ZeroDivisionError. A grid with a repeated point raises AssertionError. Otherwise the result is exactly the row-major grid `Grid`. |
| LatLongGrid.RowsAt | run_restaurant_finder/aux_functions.py:13-17 | After `m` rows there are `m * n` points. Row `i`, column `j` sits at `i * n + j`. |
| LatLongGrid.GridShape | run_restaurant_finder/aux_functions.py:10-17 | The grid has `n * n` points (none for negative `n`). The point at `i * n + j` is `top_left` moved `i` latitude steps and `j` longitude steps. The first point is `top_left`, and every point carries `radius`. |
| LatLongGrid.GridAvoidsBottomRight | run_restaurant_finder/aux_functions.py:13-16 | With non-zero steps, no point lies on the bottom-right corner's latitude or longitude. |
| LatLongGrid.GridDistinct | run_restaurant_finder/aux_functions.py:19 | The duplicate assertion holds exactly when `n <= 1` or both steps are non-zero. Corners sharing a latitude or a longitude make it fail for `n >= 2`. |
| Common.DistinctIffSetSize | run_restaurant_finder/aux_functions.py:19 | `len(xs) == len(set(xs))` holds exactly when `xs` has no repeated element. |
| CoordinateInput.LatLongFromRows | restaurant_finder/aux_functions.py:26-32 | The output has no duplicates. A tuple is in it exactly when it is `(round(LAT), round(LONG), radius)` of some row. It is no longer than the rows, and every tuple carries `radius`. |
| CoordinateInput.Listing | restaurant_finder/aux_functions.py:32 | `list(set)` holds each element of the set exactly once. |
| CoordinateInput.StripShape | restaurant_finder/aux_functions.py:51 | `strip('()')` leaves a slice of the text that neither starts nor ends with a parenthesis. Everything it removed was a parenthesis. |
| CoordinateInput.StripIdempotent | restaurant_finder/aux_functions.py:51 | Stripping twice is stripping once. |
| CoordinateInput.Split | restaurant_finder/aux_functions.py:51 | `split(',')` yields at least one field, and no field contains a comma. |
| CoordinateInput.JoinSplit | restaurant_finder/aux_functions.py:51 | Joining the fields with commas gives the text back. |
| CoordinateInput.SplitJoin | restaurant_finder/aux_functions.py:51 | Comma-free fields joined and split again are unchanged. |
| CoordinateInput.SplitCount | restaurant_finder/aux_functions.py:51 | There is one field more than there are commas. |
| CoordinateInput.StringToTupleOutcome | restaurant_finder/aux_functions.py:51-53 | Every outcome is stated in both directions, in terms of the stripped text. The result is the pair of the first two fields exactly when there is a comma and both fields parse. IndexError exactly when there is no comma and the whole text parses as a float. ValueError exactly when the first field (the text before the first comma) does not parse, or there is a comma and the second field (up to the next comma) does not parse. The identical copy at run_restaurant_finder/aux_functions.py:62-64 behaves the same. |
| CoordinateInput.ReadsEnclosedPair | restaurant_finder/aux_functions.py:40-53 | `"(x,y)"`, with or without further fields after `y`, is read as `(float(x), float(y))`, and extra fields are never looked at. |

## Left out

- HTTP calls to the nearby-search API, Secret Manager, Cloud Storage and BigQuery are not modelled. Reading the old catalog and writing the snapshot and the catalog are the `stored` parameter and the `snapshot` and `catalog` results.
- `np.random.normal` and `random.sample` are replaced by arbitrary offsets per position and an arbitrary list of distinct positions.
- geopy's geodesic projection, `np.round` and `float()` are parameters. Coordinates and bearings are exact reals, so floating-point rounding is not modelled. For example, steps so small that float coordinates collide would make the grid assertion fail where the model says it holds.
- The `strptime` model accepts ASCII digits only. Python also accepts other Unicode decimal digits.
- `FormatDate` pads years below 1000 to four digits. glibc's `strftime` writes such years unpadded, but run dates are current dates, so this does not arise.
- `int(radius_val / 2)` goes through a float. Radii above 2^53 would round, and the model does not capture that.
- A place without `id` or `displayName` is not modelled: the code raises KeyError there, and the model assumes both keys are present.
- A response that is not JSON raises in `send_request`. The model's query always yields a response.
- The not-found case of the old catalog is not modelled, because the code has none.
- `radius_input` of `find_restaurants_in_batches` is unused by the code, so the model has no such parameter.
- Printing and logging are not modelled.
- Sampler.IterateOverCalls: the noise scale `amount_of_noise` is not a parameter. The model takes the drawn offsets themselves, so the ValueError that `np.random.normal` raises for a negative scale (`restaurant_finder/data_processing.py:31`) is not modelled.
- Sampler.IterateOverCalls: the Python function mutates and returns the dictionary it is given. The model returns a new value. Sharing between the returned dictionary and the caller's appears only where it matters, in `Merge`'s third result.
- Retention.DeleteOldEntries: when several entries have unreadable stamps, dictionary order decides which one raises. The model promises only that the error belongs to one of them.
- CoordinateInput.LatLongFromRows: the order of `list(set(...))` is left unspecified.
- The UI, superseded copies of the same functions in other folders, and the secret-manager helpers are outside this model.
