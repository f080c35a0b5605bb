/** Values shared by the restaurant finder: search points, the place records a
    nearby-search response carries, catalog entries, and the wrappers that stand
    for Python's missing keys and exceptions. */
module Common {

  datatype Option<+T> = None | Some(value: T)

  /** The Python exceptions the modelled code lets escape. */
  datatype Error = KeyError | ValueError | IndexError | ZeroDivisionError | AssertionError

  datatype Result<+T> = Ok(value: T) | Err(error: Error)

  /** A coordinate pair `(latitude, longitude)` in degrees. */
  type LatLong = (real, real)

  /** A search point `(lat, long, radius)`; the radius is in metres. */
  datatype Point = Point(lat: real, long: real, radius: int)

  /** One element of a response's `places` list. `id` and `displayName.text`
      are always read; the other fields may be absent and are read with a default. */
  datatype Place = Place(
    id: string,
    displayName: string,
    address: Option<string>,
    rating: Option<real>,
    priceLevel: Option<string>,
    primaryType: Option<string>,
    userRatingCount: Option<int>,
    types: Option<seq<string>>)

  /** The dictionary stored under a place id, in the accumulator and in the
      persisted catalog. `lastSeen` and `firstSeen` are keys that an entry may lack. */
  datatype Entry = Entry(
    displayName: string,
    address: string,
    rating: real,
    priceLevel: string,
    lastSeen: Option<string>,
    primaryType: string,
    userRatingCount: int,
    types: seq<string>,
    firstSeen: Option<string>)

  /** A dictionary from place id to entry. */
  type Catalog = map<string, Entry>

  /** How many values `range(n)` yields. */
  function RangeLength(n: int): nat {
    if n > 0 then n else 0
  }

  predicate Distinct<T(==)>(s: seq<T>) {
    forall i, j | 0 <= i < j < |s| :: s[i] != s[j]
  }

  function Elements<T>(s: seq<T>): set<T> {
    set x | x in s
  }

  /** `len(xs) == len(set(xs))` holds exactly when `xs` has no repeated element. */
  lemma {:induction false} DistinctIffSetSize<T>(s: seq<T>)
    ensures |Elements(s)| <= |s|
    ensures Distinct(s) <==> |Elements(s)| == |s|
  {
    if s == [] {
      assert Elements(s) == {};
    } else {
      var n := |s| - 1;
      var t, x := s[..n], s[n];
      DistinctIffSetSize(t);
      assert s == t + [x];
      assert Elements(s) == Elements(t) + {x};
      if x in Elements(t) {
        assert Elements(s) == Elements(t);
        var i :| 0 <= i < |t| && t[i] == x;
        assert s[i] == s[n];
      } else {
        assert |Elements(s)| == |Elements(t)| + 1;
        if Distinct(t) {
          forall i, j | 0 <= i < j < |s| ensures s[i] != s[j] {
            if j == n {
              assert s[i] in Elements(t);
            } else {
              assert s[i] == t[i] && s[j] == t[j];
            }
          }
        } else {
          var i, j :| 0 <= i < j < |t| && t[i] == t[j];
          assert s[i] == s[j];
        }
      }
    }
  }
}
