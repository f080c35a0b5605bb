/** The rectangular search grid (`build_lat_long_grid`): `n_steps` rows from the
    top-left corner southwards and `n_steps` columns eastwards, each step a
    `1 / n_steps` share of the span between the corners, every point with one radius.
    Coordinates are exact reals here. */
module LatLongGrid {
  import opened Common

  /** `lat_step`: the latitude span divided into `n_steps`. */
  function LatStep(topLeft: LatLong, bottomRight: LatLong, nSteps: int): real
    requires nSteps != 0
  {
    (topLeft.0 - bottomRight.0) / (nSteps as real)
  }

  /** `long_step`: the longitude span divided into `n_steps`. */
  function LongStep(topLeft: LatLong, bottomRight: LatLong, nSteps: int): real
    requires nSteps != 0
  {
    (bottomRight.1 - topLeft.1) / (nSteps as real)
  }

  /** The point of row `i` and column `j`. */
  function GridPoint(topLeft: LatLong, bottomRight: LatLong, nSteps: int, radius: int, i: int, j: int): Point
    requires nSteps != 0
  {
    Point(topLeft.0 - (i as real) * LatStep(topLeft, bottomRight, nSteps),
          topLeft.1 + (j as real) * LongStep(topLeft, bottomRight, nSteps),
          radius)
  }

  /** The points one pass of the inner loop appends. */
  function Row(topLeft: LatLong, bottomRight: LatLong, nSteps: int, radius: int, i: int): seq<Point>
    requires nSteps != 0
  {
    seq(RangeLength(nSteps), j requires 0 <= j < RangeLength(nSteps) => GridPoint(topLeft, bottomRight, nSteps, radius, i, j))
  }

  /** The first `m` rows, in order. */
  function Rows(topLeft: LatLong, bottomRight: LatLong, nSteps: int, radius: int, m: nat): seq<Point>
    requires nSteps != 0
  {
    if m == 0 then [] else Rows(topLeft, bottomRight, nSteps, radius, m - 1) + Row(topLeft, bottomRight, nSteps, radius, m - 1)
  }

  /** `lat_long_pairs` once both loops have finished. */
  function Grid(topLeft: LatLong, bottomRight: LatLong, nSteps: int, radius: int): seq<Point>
    requires nSteps != 0
  {
    Rows(topLeft, bottomRight, nSteps, radius, RangeLength(nSteps))
  }

  /** `build_lat_long_grid(top_left, bottom_right, n_steps, radius)`: a ZeroDivisionError
      for zero steps, an AssertionError when the grid repeats a point, the grid otherwise. */
  method BuildLatLongGrid(topLeft: LatLong, bottomRight: LatLong, nSteps: int, radius: int)
    returns (r: Result<seq<Point>>)
    ensures nSteps == 0 ==> r == Err(ZeroDivisionError)
    ensures nSteps != 0 && Distinct(Grid(topLeft, bottomRight, nSteps, radius)) ==> r == Ok(Grid(topLeft, bottomRight, nSteps, radius))
    ensures nSteps != 0 && !Distinct(Grid(topLeft, bottomRight, nSteps, radius)) ==> r == Err(AssertionError)
  {
    if nSteps == 0 {
      return Err(ZeroDivisionError);
    }
    var latStep := (topLeft.0 - bottomRight.0) / (nSteps as real);
    var longStep := (bottomRight.1 - topLeft.1) / (nSteps as real);
    var latLongPairs: seq<Point> := [];
    var i := 0;
    while i < nSteps
      invariant 0 <= i <= RangeLength(nSteps)
      invariant latLongPairs == Rows(topLeft, bottomRight, nSteps, radius, i)
    {
      ghost var row := Row(topLeft, bottomRight, nSteps, radius, i);
      var j := 0;
      while j < nSteps
        invariant 0 <= j <= RangeLength(nSteps)
        invariant latLongPairs == Rows(topLeft, bottomRight, nSteps, radius, i) + row[..j]
      {
        var lat := topLeft.0 - (i as real) * latStep;
        var long := topLeft.1 + (j as real) * longStep;
        assert row[j] == Point(lat, long, radius);
        assert row[..j + 1] == row[..j] + [Point(lat, long, radius)];
        latLongPairs := latLongPairs + [Point(lat, long, radius)];
        j := j + 1;
      }
      assert row[..nSteps] == row;
      i := i + 1;
    }
    DistinctIffSetSize(latLongPairs);
    if |latLongPairs| != |Elements(latLongPairs)| {
      return Err(AssertionError);
    }
    return Ok(latLongPairs);
  }

  /** Row `i`, column `j` of an `n`-wide grid, in row-major order. */
  function Pos(n: nat, i: int, j: int): int {
    i * n + j
  }

  lemma PosBelow(n: nat, i: nat, j: nat, m: nat)
    requires i < m && j < n
    ensures 0 <= Pos(n, i, j) < m * n
  {
    assert i * n + j < (i + 1) * n;
    assert (i + 1) * n <= m * n;
  }

  lemma PosDiffer(n: nat, i: int, j: int, i': int, j': int)
    requires Pos(n, i, j) != Pos(n, i', j')
    ensures i != i' || j != j'
  {
  }

  /** Every position below `n * n` is a row and a column below `n`. */
  lemma Decompose(n: nat, k: int)
    requires 0 <= k < n * n
    ensures 0 <= k / n < n && 0 <= k % n < n && k == Pos(n, k / n, k % n)
  {
    var i := k / n;
    assert k == i * n + k % n;
  }

  /** The first `m` rows hold `m * n_steps` points in row-major order. */
  lemma {:induction false} RowsAt(topLeft: LatLong, bottomRight: LatLong, nSteps: int, radius: int, m: nat)
    requires nSteps != 0
    ensures |Rows(topLeft, bottomRight, nSteps, radius, m)| == m * RangeLength(nSteps)
    ensures forall i, j | 0 <= i < m && 0 <= j < RangeLength(nSteps) ::
              Rows(topLeft, bottomRight, nSteps, radius, m)[Pos(RangeLength(nSteps), i, j)] == GridPoint(topLeft, bottomRight, nSteps, radius, i, j)
  {
    if m > 0 {
      var n := RangeLength(nSteps);
      var before := Rows(topLeft, bottomRight, nSteps, radius, m - 1);
      var row := Row(topLeft, bottomRight, nSteps, radius, m - 1);
      RowsAt(topLeft, bottomRight, nSteps, radius, m - 1);
      assert m * n == (m - 1) * n + n;
      forall i, j | 0 <= i < m && 0 <= j < n
        ensures Rows(topLeft, bottomRight, nSteps, radius, m)[Pos(n, i, j)] == GridPoint(topLeft, bottomRight, nSteps, radius, i, j)
      {
        if i < m - 1 {
          PosBelow(n, i, j, m - 1);
          assert Rows(topLeft, bottomRight, nSteps, radius, m)[Pos(n, i, j)] == before[Pos(n, i, j)];
        } else {
          assert Pos(n, i, j) == |before| + j;
          assert Rows(topLeft, bottomRight, nSteps, radius, m)[Pos(n, i, j)] == row[j];
        }
      }
    }
  }

  /** The point at position `k` is the one of row `k / n_steps`, column `k % n_steps`. */
  lemma GridCell(topLeft: LatLong, bottomRight: LatLong, nSteps: int, radius: int, k: int)
    requires nSteps != 0
    requires 0 <= k < |Grid(topLeft, bottomRight, nSteps, radius)|
    ensures var n := RangeLength(nSteps);
      && 0 <= k / n < n && 0 <= k % n < n && k == Pos(n, k / n, k % n)
      && Grid(topLeft, bottomRight, nSteps, radius)[k] == GridPoint(topLeft, bottomRight, nSteps, radius, k / n, k % n)
  {
    var n := RangeLength(nSteps);
    RowsAt(topLeft, bottomRight, nSteps, radius, n);
    Decompose(n, k);
  }

  /** Starting from `top_left` and moving `i` steps, with `i` short of `n_steps`, never
      reaches the other corner's line unless the step is zero. */
  lemma ShortOfCorner(start: real, span: real, nSteps: int, i: int)
    requires 0 <= i < nSteps
    requires span / (nSteps as real) != 0.0
    ensures start + (i as real) * (span / (nSteps as real)) != start + span
  {
    var step := span / (nSteps as real);
    assert span == (nSteps as real) * step;
    assert (nSteps as real) * step - (i as real) * step == ((nSteps - i) as real) * step;
  }

  /** `n_steps * n_steps` points (none for a negative count); the one at `i * n_steps + j`
      is `top_left` moved `i` latitude steps south and `j` longitude steps east; the
      first is `top_left`, and every point carries `radius`. */
  lemma GridShape(topLeft: LatLong, bottomRight: LatLong, nSteps: int, radius: int)
    requires nSteps != 0
    ensures |Grid(topLeft, bottomRight, nSteps, radius)| == RangeLength(nSteps) * RangeLength(nSteps)
    ensures forall i, j | 0 <= i < RangeLength(nSteps) && 0 <= j < RangeLength(nSteps) ::
              Grid(topLeft, bottomRight, nSteps, radius)[Pos(RangeLength(nSteps), i, j)] == GridPoint(topLeft, bottomRight, nSteps, radius, i, j)
    ensures nSteps > 0 ==> Grid(topLeft, bottomRight, nSteps, radius)[0] == Point(topLeft.0, topLeft.1, radius)
    ensures forall k | 0 <= k < |Grid(topLeft, bottomRight, nSteps, radius)| :: Grid(topLeft, bottomRight, nSteps, radius)[k].radius == radius
  {
    var g, n := Grid(topLeft, bottomRight, nSteps, radius), RangeLength(nSteps);
    RowsAt(topLeft, bottomRight, nSteps, radius, n);
    if n > 0 {
      assert g[Pos(n, 0, 0)] == g[0];
    }
    forall k | 0 <= k < |g| ensures g[k].radius == radius {
      GridCell(topLeft, bottomRight, nSteps, radius, k);
    }
  }

  /** Since rows and columns stop one step short of `n_steps`, no point lies on the
      bottom-right corner's latitude or longitude unless that step is zero. */
  lemma GridAvoidsBottomRight(topLeft: LatLong, bottomRight: LatLong, nSteps: int, radius: int, k: int)
    requires nSteps != 0
    requires 0 <= k < |Grid(topLeft, bottomRight, nSteps, radius)|
    ensures LatStep(topLeft, bottomRight, nSteps) != 0.0 ==> Grid(topLeft, bottomRight, nSteps, radius)[k].lat != bottomRight.0
    ensures LongStep(topLeft, bottomRight, nSteps) != 0.0 ==> Grid(topLeft, bottomRight, nSteps, radius)[k].long != bottomRight.1
  {
    var n := RangeLength(nSteps);
    GridCell(topLeft, bottomRight, nSteps, radius, k);
    if LatStep(topLeft, bottomRight, nSteps) != 0.0 {
      ShortOfCorner(-topLeft.0, topLeft.0 - bottomRight.0, nSteps, k / n);
    }
    if LongStep(topLeft, bottomRight, nSteps) != 0.0 {
      ShortOfCorner(topLeft.1, bottomRight.1 - topLeft.1, nSteps, k % n);
    }
  }

  /** Different numbers of a non-zero step cover different distances. */
  lemma StepsDiffer(step: real, x: int, y: int)
    requires step != 0.0 && x != y
    ensures (x as real) * step != (y as real) * step
  {
    assert (x as real) * step - (y as real) * step == ((x - y) as real) * step;
  }

  /** With both steps non-zero, two positions of the grid hold different points. */
  lemma CellsDiffer(topLeft: LatLong, bottomRight: LatLong, nSteps: int, radius: int, p: int, q: int)
    requires nSteps != 0
    requires LatStep(topLeft, bottomRight, nSteps) != 0.0 && LongStep(topLeft, bottomRight, nSteps) != 0.0
    requires 0 <= p < q < |Grid(topLeft, bottomRight, nSteps, radius)|
    ensures Grid(topLeft, bottomRight, nSteps, radius)[p] != Grid(topLeft, bottomRight, nSteps, radius)[q]
  {
    var n := RangeLength(nSteps);
    GridCell(topLeft, bottomRight, nSteps, radius, p);
    GridCell(topLeft, bottomRight, nSteps, radius, q);
    PosDiffer(n, p / n, p % n, q / n, q % n);
    PointsDiffer(topLeft, bottomRight, nSteps, radius, p / n, p % n, q / n, q % n);
  }

  /** With both steps non-zero, different rows or columns give different points. */
  lemma PointsDiffer(topLeft: LatLong, bottomRight: LatLong, nSteps: int, radius: int, i: int, j: int, i': int, j': int)
    requires nSteps != 0
    requires LatStep(topLeft, bottomRight, nSteps) != 0.0 && LongStep(topLeft, bottomRight, nSteps) != 0.0
    requires i != i' || j != j'
    ensures GridPoint(topLeft, bottomRight, nSteps, radius, i, j) != GridPoint(topLeft, bottomRight, nSteps, radius, i', j')
  {
    if i != i' {
      StepsDiffer(LatStep(topLeft, bottomRight, nSteps), i, i');
    } else {
      StepsDiffer(LongStep(topLeft, bottomRight, nSteps), j, j');
    }
  }

  /** The duplicate check passes exactly when there is at most one step or both
      steps are non-zero: corners that share a latitude or a longitude make a grid
      of two or more steps repeat a point. */
  lemma GridDistinct(topLeft: LatLong, bottomRight: LatLong, nSteps: int, radius: int)
    requires nSteps != 0
    ensures Distinct(Grid(topLeft, bottomRight, nSteps, radius)) <==>
      nSteps <= 1 || (LatStep(topLeft, bottomRight, nSteps) != 0.0 && LongStep(topLeft, bottomRight, nSteps) != 0.0)
  {
    var g, n := Grid(topLeft, bottomRight, nSteps, radius), RangeLength(nSteps);
    var latStep, longStep := LatStep(topLeft, bottomRight, nSteps), LongStep(topLeft, bottomRight, nSteps);
    RowsAt(topLeft, bottomRight, nSteps, radius, n);
    if n < 2 {
      assert |g| <= 1;
    } else if latStep == 0.0 {
      PosBelow(n, 1, 0, n);
      assert g[Pos(n, 1, 0)] == g[Pos(n, 0, 0)];
    } else if longStep == 0.0 {
      PosBelow(n, 0, 1, n);
      assert g[Pos(n, 0, 1)] == g[Pos(n, 0, 0)];
    } else {
      forall p, q | 0 <= p < q < |g| ensures g[p] != g[q] {
        CellsDiffer(topLeft, bottomRight, nSteps, radius, p, q);
      }
    }
  }
}
