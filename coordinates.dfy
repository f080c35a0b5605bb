/** Coordinate input: the rows of a CSV of coordinates, rounded and deduplicated
    into search points (`get_latlong_from_bucket`), and the corner texts of the form
    `"(lat, long)"` that give the grid its two corners (`string_to_tuple`). Reading
    the CSV, `np.round` and `float()` are outside the model and come in as parameters. */
module CoordinateInput {
  import opened Common

  /** `np.round(value, decimals)`. */
  type Rounding = (real, int) -> real

  /** `float(text)`; `None` stands for its ValueError. */
  type FloatParser = string -> Option<real>

  /** The `LAT` and `LONG` columns of one CSV row. */
  datatype Row = Row(lat: real, long: real)

  /** One tuple of the list comprehension. */
  function RoundedRow(row: Row, resolution: int, radius: int, round: Rounding): Point {
    Point(round(row.lat, resolution), round(row.long, resolution), radius)
  }

  /** The list comprehension over the rows, in row order. */
  function RoundedRows(rows: seq<Row>, resolution: int, radius: int, round: Rounding): seq<Point> {
    seq(|rows|, k requires 0 <= k < |rows| => RoundedRow(rows[k], resolution, radius, round))
  }

  lemma RoundedMembers(rows: seq<Row>, resolution: int, radius: int, round: Rounding)
    ensures forall p :: p in RoundedRows(rows, resolution, radius, round) <==>
                        exists k | 0 <= k < |rows| :: p == RoundedRow(rows[k], resolution, radius, round)
  {
    var rounded := RoundedRows(rows, resolution, radius, round);
    forall p ensures p in rounded <==> exists k | 0 <= k < |rows| :: p == RoundedRow(rows[k], resolution, radius, round) {
      if p in rounded {
        var k :| 0 <= k < |rounded| && rounded[k] == p;
        assert p == RoundedRow(rows[k], resolution, radius, round);
      }
      if exists k | 0 <= k < |rows| :: p == RoundedRow(rows[k], resolution, radius, round) {
        var k :| 0 <= k < |rows| && p == RoundedRow(rows[k], resolution, radius, round);
        assert rounded[k] == p;
      }
    }
  }

  /** `list(s)` for a set: each element once, in an order the set decides. */
  ghost function Listing(s: set<Point>): (r: seq<Point>)
    ensures Distinct(r) && Elements(r) == s && |r| == |s|
    decreases s
  {
    if s == {} then []
    else
      var x :| x in s;
      var rest := Listing(s - {x});
      assert x !in rest;
      [x] + rest
  }

  /** The list `get_latlong_from_bucket` returns for the downloaded rows: every tuple
      is a rounded row, every rounded row appears exactly once, the list is no longer
      than the rows, and every tuple carries the given radius. */
  ghost function LatLongFromRows(rows: seq<Row>, resolution: int, radius: int, round: Rounding): (r: seq<Point>)
    ensures Distinct(r)
    ensures forall p :: p in r <==> exists k | 0 <= k < |rows| :: p == RoundedRow(rows[k], resolution, radius, round)
    ensures |r| <= |rows|
    ensures forall k | 0 <= k < |r| :: r[k].radius == radius
  {
    var rounded := RoundedRows(rows, resolution, radius, round);
    DistinctIffSetSize(rounded);
    RoundedMembers(rows, resolution, radius, round);
    var r := Listing(Elements(rounded));
    assert forall p :: p in r <==> p in Elements(r);
    assert forall p :: p in rounded <==> p in Elements(rounded);
    assert forall k | 0 <= k < |r| :: r[k] in rounded;
    r
  }

  // ----- `string_to_tuple` -----

  predicate IsParen(c: char) {
    c == '(' || c == ')'
  }

  /** The leading half of `strip('()')`: what remains is a suffix that does not start
      with a parenthesis, and everything removed was one. */
  function StripLeading(s: string): (r: string)
    ensures |r| <= |s| && r == s[|s| - |r|..]
    ensures forall k | 0 <= k < |s| - |r| :: IsParen(s[k])
    ensures r == [] || !IsParen(r[0])
    decreases |s|
  {
    if s != [] && IsParen(s[0]) then StripLeading(s[1..]) else s
  }

  /** The trailing half of `strip('()')`: what remains is a prefix that does not end
      with a parenthesis, and everything removed was one. */
  function StripTrailing(s: string): (r: string)
    ensures |r| <= |s| && r == s[..|r|]
    ensures forall k | |r| <= k < |s| :: IsParen(s[k])
    ensures r == [] || !IsParen(r[|r| - 1])
    decreases |s|
  {
    if s != [] && IsParen(s[|s| - 1]) then StripTrailing(s[..|s| - 1]) else s
  }

  /** `text.strip('()')`. */
  function Strip(s: string): string {
    StripTrailing(StripLeading(s))
  }

  /** How many characters `strip('()')` removes from the front. */
  function Lead(s: string): nat {
    |s| - |StripLeading(s)|
  }

  /** `strip('()')` removes every leading and every trailing `(`/`)` and nothing
      else: the result is a slice of the text, everything outside it is a
      parenthesis, and it neither starts nor ends with one. */
  lemma StripShape(s: string)
    ensures Lead(s) + |Strip(s)| <= |s| && Strip(s) == s[Lead(s)..Lead(s) + |Strip(s)|]
    ensures forall k | 0 <= k < Lead(s) :: IsParen(s[k])
    ensures forall k | Lead(s) + |Strip(s)| <= k < |s| :: IsParen(s[k])
    ensures Strip(s) == [] || (!IsParen(Strip(s)[0]) && !IsParen(Strip(s)[|Strip(s)| - 1]))
  {
    StripSlice(s);
    StripTail(s);
    StripEnds(s);
  }

  /** What `strip('()')` keeps is the slice after the leading parentheses. */
  lemma StripSlice(s: string)
    ensures Lead(s) + |Strip(s)| <= |s| && Strip(s) == s[Lead(s)..Lead(s) + |Strip(s)|]
  {
    var t := StripLeading(s);
    var r := StripTrailing(t);
    assert t == s[Lead(s)..];
    assert r == t[..|r|];
  }

  /** Everything after the kept slice is a parenthesis. */
  lemma StripTail(s: string)
    ensures Lead(s) + |Strip(s)| <= |s|
    ensures forall k | Lead(s) + |Strip(s)| <= k < |s| :: IsParen(s[k])
  {
    SuffixParens(s, Lead(s), StripLeading(s), |Strip(s)|);
  }

  /** Parentheses at the end of a suffix are parentheses at the end of the text. */
  lemma SuffixParens(s: string, lead: nat, t: string, n: nat)
    requires lead <= |s| && t == s[lead..] && n <= |t|
    requires forall j | n <= j < |t| :: IsParen(t[j])
    ensures forall k | lead + n <= k < |s| :: IsParen(s[k])
  {
    forall k | lead + n <= k < |s| ensures IsParen(s[k]) {
      assert s[k] == t[k - lead];
    }
  }

  /** The kept slice neither starts nor ends with a parenthesis. */
  lemma StripEnds(s: string)
    ensures Strip(s) == [] || (!IsParen(Strip(s)[0]) && !IsParen(Strip(s)[|Strip(s)| - 1]))
  {
    var t := StripLeading(s);
    var r := StripTrailing(t);
    if r != [] {
      assert r[0] == t[0];
    }
  }

  /** Stripping a second time changes nothing. */
  lemma StripIdempotent(s: string)
    ensures Strip(Strip(s)) == Strip(s)
  {
    StripShape(s);
  }

  /** A text enclosed in one pair of parentheses, with no parenthesis at its own
      ends, is unwrapped exactly. */
  lemma StripEnclosed(t: string)
    requires t != [] && !IsParen(t[0]) && !IsParen(t[|t| - 1])
    ensures Strip("(" + t + ")") == t
  {
    var s := "(" + t + ")";
    assert s[1..] == t + ")";
    assert StripLeading(s) == StripLeading(t + ")");
    assert StripLeading(t + ")") == t + ")";
    assert (t + ")")[..|t|] == t;
  }

  /** `text.split(',')`: the fields between commas, at least one. */
  function Split(s: string): (fields: seq<string>)
    ensures |fields| >= 1
    ensures forall k | 0 <= k < |fields| :: ',' !in fields[k]
    decreases |s|
  {
    if s == [] then [""]
    else if s[0] == ',' then [""] + Split(s[1..])
    else
      var rest := Split(s[1..]);
      [[s[0]] + rest[0]] + rest[1..]
  }

  /** `','.join(fields)`. */
  function Join(fields: seq<string>): string
    requires |fields| >= 1
  {
    if |fields| == 1 then fields[0] else fields[0] + "," + Join(fields[1..])
  }

  /** Splitting on commas loses nothing: joining the fields gives the text back. */
  lemma {:induction false} JoinSplit(s: string)
    ensures Join(Split(s)) == s
    decreases |s|
  {
    if s != [] {
      JoinSplit(s[1..]);
      var rest := Split(s[1..]);
      if s[0] == ',' {
        assert s == [','] + s[1..];
      } else if |rest| == 1 {
        assert s == [s[0]] + s[1..];
      } else {
        assert Join(Split(s)) == ([s[0]] + rest[0]) + "," + Join(rest[1..]);
        assert s == [s[0]] + s[1..];
      }
    }
  }

  /** A field without commas, followed by a comma, is split off as the first field. */
  lemma {:induction false} SplitAfter(a: string, b: string)
    requires ',' !in a
    ensures Split(a + "," + b) == [a] + Split(b)
    decreases |a|
  {
    if a == [] {
      assert a + "," + b == [','] + b;
    } else {
      assert (a + "," + b)[1..] == a[1..] + "," + b;
      SplitAfter(a[1..], b);
      assert [a[0]] + a[1..] == a;
    }
  }

  /** A text without commas is a single field. */
  lemma {:induction false} SplitSingle(a: string)
    requires ',' !in a
    ensures Split(a) == [a]
    decreases |a|
  {
    if a != [] {
      SplitSingle(a[1..]);
      assert [a[0]] + a[1..] == a;
    }
  }

  /** Comma-free fields survive a join and a split unchanged, so `Split` and `Join`
      are inverse on them. */
  lemma {:induction false} SplitJoin(fields: seq<string>)
    requires |fields| >= 1
    requires forall k | 0 <= k < |fields| :: ',' !in fields[k]
    ensures Split(Join(fields)) == fields
    decreases |fields|
  {
    if |fields| == 1 {
      SplitSingle(fields[0]);
    } else {
      SplitJoin(fields[1..]);
      SplitAfter(fields[0], Join(fields[1..]));
    }
  }

  /** `split(',')` yields one field more than there are commas. */
  lemma {:induction false} SplitCount(s: string)
    ensures |Split(s)| == multiset(s)[','] + 1
    decreases |s|
  {
    if s != [] {
      SplitCount(s[1..]);
      assert s == [s[0]] + s[1..];
      assert multiset(s) == multiset{s[0]} + multiset(s[1..]);
    }
  }

  /** `string_to_tuple(text)`: `float` of the first field is taken before the second
      field is indexed, so a bad first field is a ValueError even when there is no
      second one. */
  function StringToTuple(s: string, parse: FloatParser): Result<(real, real)> {
    var fields := Split(Strip(s));
    match parse(fields[0])
    case None => Err(ValueError)
    case Some(a) =>
      if |fields| < 2 then Err(IndexError)
      else
        match parse(fields[1])
        case None => Err(ValueError)
        case Some(b) => Ok((a, b))
  }

  /** The outcome in terms of the stripped text, every case stated both ways: the
      pair of the first two comma-separated fields exactly when there is a comma and
      both fields parse; an IndexError exactly when the text has no comma and parses
      as a whole; a ValueError exactly when the first field does not parse, or there
      is a second field and it does not parse. */
  lemma StringToTupleOutcome(s: string, parse: FloatParser)
    ensures StringToTuple(s, parse) == Err(IndexError) <==> ',' !in Strip(s) && parse(Strip(s)).Some?
    ensures StringToTuple(s, parse) == Err(ValueError) <==>
              || parse(FirstField(Strip(s))).None?
              || (',' in Strip(s) && parse(SecondField(Strip(s))).None?)
    ensures StringToTuple(s, parse).Ok? <==>
              && ',' in Strip(s)
              && parse(FirstField(Strip(s))).Some?
              && parse(SecondField(Strip(s))).Some?
    ensures StringToTuple(s, parse).Ok? ==>
              StringToTuple(s, parse).value == (parse(FirstField(Strip(s))).value, parse(SecondField(Strip(s))).value)
  {
    var t := Strip(s);
    SplitHasSecond(t);
    SplitFirstField(t);
    if ',' in t {
      SplitSecondField(t);
    }
  }

  /** The text before the first comma, or all of it when there is none. */
  function FirstField(t: string): string {
    if ',' in t then t[..FirstComma(t)] else t
  }

  /** The text between the first comma and the next one, or the end. */
  function SecondField(t: string): string
    requires ',' in t
  {
    FirstField(t[FirstComma(t) + 1..])
  }

  /** There is a second field exactly when there is a comma. */
  lemma SplitHasSecond(t: string)
    ensures |Split(t)| >= 2 <==> ',' in t
  {
    SplitCount(t);
    assert ',' in t <==> ',' in multiset(t);
  }

  /** The second field is the text between the first comma and the next. */
  lemma SplitSecondField(t: string)
    requires ',' in t
    ensures |Split(t)| >= 2 && Split(t)[1] == SecondField(t)
  {
    var c := FirstComma(t);
    var before, after := t[..c], t[c + 1..];
    assert t == before + "," + after;
    SplitAfter(before, after);
    SplitFirstField(after);
  }

  /** The first field is the text before the first comma. */
  lemma SplitFirstField(t: string)
    ensures Split(t)[0] == FirstField(t)
  {
    if ',' in t {
      var c := FirstComma(t);
      var before, after := t[..c], t[c + 1..];
      assert t == before + "," + after;
      SplitAfter(before, after);
    } else {
      SplitSingle(t);
    }
  }

  /** The position of the first comma. */
  function FirstComma(t: string): (c: nat)
    requires ',' in t
    ensures c < |t| && t[c] == ',' && ',' !in t[..c]
  {
    if t[0] == ',' then 0
    else
      assert t == [t[0]] + t[1..];
      var c := 1 + FirstComma(t[1..]);
      assert t[..c] == [t[0]] + t[1..][..c - 1];
      c
  }

  /** Two comma-free fields and a remainder starting with a comma (or nothing)
      split into those two fields first. */
  lemma TwoFields(x: string, y: string, extra: string)
    requires ',' !in x && ',' !in y
    requires extra == [] || extra[0] == ','
    ensures var f := Split(x + "," + (y + extra)); |f| >= 2 && f[0] == x && f[1] == y
  {
    SplitAfter(x, y + extra);
    if extra == [] {
      assert y + extra == y;
      SplitSingle(y);
    } else {
      assert y + extra == y + "," + extra[1..];
      SplitAfter(y, extra[1..]);
    }
  }

  /** The text the corner secrets hold, `"(x,y)"`, possibly with further fields after
      `y`, is read as `(float(x), float(y))`; the extra fields are never looked at. */
  lemma ReadsEnclosedPair(x: string, y: string, extra: string, parse: FloatParser)
    requires ',' !in x && ',' !in y
    requires x != [] && !IsParen(x[0])
    requires extra == [] || extra[0] == ','
    requires y + extra != [] && !IsParen((y + extra)[|y + extra| - 1])
    requires parse(x).Some? && parse(y).Some?
    ensures StringToTuple("(" + x + "," + y + extra + ")", parse) == Ok((parse(x).value, parse(y).value))
  {
    var t := x + "," + (y + extra);
    assert "(" + x + "," + y + extra + ")" == "(" + t + ")";
    assert t[0] == x[0];
    assert t[|t| - 1] == (y + extra)[|y + extra| - 1];
    StripEnclosed(t);
    TwoFields(x, y, extra);
  }
}
