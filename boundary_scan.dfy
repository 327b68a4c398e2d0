/**
  The grid-cell boundary scan of MetaballField.get_boundary_points, stated
  generically over an inside/outside classification of the plane.

  The rectangle [xMin, xMax] x [yMin, yMax] is cut into resolution x resolution
  cells. A cell straddles the boundary when its four corners are neither all
  inside nor all outside; the scan emits the centre of every such cell, x-index
  major and y-index minor.
 */
module BoundaryScan {

  datatype Point = Point(x: real, y: real)

  datatype Bounds = Bounds(xMin: real, xMax: real, yMin: real, yMax: real)

  /** Cell (i, j): the i-th column and j-th row of the grid. */
  datatype Cell = Cell(i: nat, j: nat)

  /** The outcome of a scan: the emitted points, or the division by a zero resolution. */
  datatype Scan = Points(points: seq<Point>) | ZeroDivision

  /** The viewport the scan defaults to: 16 by 9 world units around the origin. */
  const DefaultBounds: Bounds := Bounds(-8.0, 8.0, -4.5, 4.5)

  /** Cells per axis: a loop over range(resolution) runs zero times when resolution <= 0. */
  function Count(resolution: int): nat
  {
    if resolution > 0 then resolution else 0
  }

  function StepX(b: Bounds, resolution: int): real
    requires resolution != 0
  {
    (b.xMax - b.xMin) / resolution as real
  }

  function StepY(b: Bounds, resolution: int): real
    requires resolution != 0
  {
    (b.yMax - b.yMin) / resolution as real
  }

  /** lo + k * step, written as k repeated additions so that the verifier meets no
      product of variables when it unfolds the scan; OffsetIsProduct proves the two equal. */
  function Offset(lo: real, step: real, k: nat): real
  {
    if k == 0 then lo else Offset(lo, step, k - 1) + step
  }

  lemma {:induction false} OffsetIsProduct(lo: real, step: real, k: nat)
    ensures Offset(lo, step, k) == lo + k as real * step
  {
    if k > 0 {
      OffsetIsProduct(lo, step, k - 1);
      assert (k - 1) as real * step + step == k as real * step;
    }
  }

  /** The lower-left corner of cell c: xMin + i * stepX and yMin + j * stepY. */
  function CornerX(b: Bounds, resolution: int, c: Cell): real
    requires resolution != 0
  {
    Offset(b.xMin, StepX(b, resolution), c.i)
  }

  function CornerY(b: Bounds, resolution: int, c: Cell): real
    requires resolution != 0
  {
    Offset(b.yMin, StepY(b, resolution), c.j)
  }

  /** The scan's test on the four corner classifications: not all inside, and some inside. */
  predicate Straddles(c0: bool, c1: bool, c2: bool, c3: bool): (r: bool)
    ensures r <==> !(c0 == c1 && c1 == c2 && c2 == c3)
  {
    !(c0 && c1 && c2 && c3) && (c0 || c1 || c2 || c3)
  }

  /** Cell c straddles the boundary: its corners, taken counter-clockwise from the lower left, disagree. */
  predicate OnBoundary(inside: (real, real) -> bool, b: Bounds, resolution: int, c: Cell)
    requires resolution != 0
  {
    var x, y := CornerX(b, resolution, c), CornerY(b, resolution, c);
    var sx, sy := StepX(b, resolution), StepY(b, resolution);
    Straddles(inside(x, y), inside(x + sx, y), inside(x + sx, y + sy), inside(x, y + sy))
  }

  /** The four corners of cell c, in the order the scan samples them. */
  function Corners(b: Bounds, resolution: int, c: Cell): (cs: seq<Point>)
    requires resolution != 0
    ensures |cs| == 4
  {
    var x, y := CornerX(b, resolution, c), CornerY(b, resolution, c);
    var sx, sy := StepX(b, resolution), StepY(b, resolution);
    [Point(x, y), Point(x + sx, y), Point(x + sx, y + sy), Point(x, y + sy)]
  }

  /** Squared Euclidean distance of two points. */
  function DistSq(p: Point, q: Point): real
  {
    (p.x - q.x) * (p.x - q.x) + (p.y - q.y) * (p.y - q.y)
  }

  /** Every corner of every cell of the grid is classified v: all inside, or none. */
  predicate CornersUniform(inside: (real, real) -> bool, b: Bounds, resolution: int, v: bool)
    requires resolution != 0
  {
    forall i, j, m :: 0 <= i < Count(resolution) && 0 <= j < Count(resolution) && 0 <= m < 4 ==>
      inside(Corners(b, resolution, Cell(i, j))[m].x, Corners(b, resolution, Cell(i, j))[m].y) == v
  }

  /** Corner coordinates computed from precomputed steps, as the scan's loop does. */
  lemma CornerFromSteps(b: Bounds, resolution: int, c: Cell, stepX: real, stepY: real, x: real, y: real)
    requires resolution != 0
    requires stepX == (b.xMax - b.xMin) / resolution as real && stepY == (b.yMax - b.yMin) / resolution as real
    requires x == b.xMin + c.i as real * stepX && y == b.yMin + c.j as real * stepY
    ensures stepX == StepX(b, resolution) && stepY == StepY(b, resolution)
    ensures x == CornerX(b, resolution, c) && y == CornerY(b, resolution, c)
  {
    OffsetIsProduct(b.xMin, stepX, c.i);
    OffsetIsProduct(b.yMin, stepY, c.j);
  }

  /** The point emitted for cell c. */
  function Center(b: Bounds, resolution: int, c: Cell): Point
    requires resolution != 0
  {
    Point(CornerX(b, resolution, c) + StepX(b, resolution) / 2.0,
          CornerY(b, resolution, c) + StepY(b, resolution) / 2.0)
  }

  /** The boundary cells (i, 0), ..., (i, j - 1) of column i, in order. */
  function RowCells(inside: (real, real) -> bool, b: Bounds, resolution: int, i: nat, j: nat): seq<Cell>
    requires resolution != 0
  {
    if j == 0 then []
    else
      RowCells(inside, b, resolution, i, j - 1)
      + (if OnBoundary(inside, b, resolution, Cell(i, j - 1)) then [Cell(i, j - 1)] else [])
  }

  /** The boundary cells of columns 0, ..., i - 1, in scan order. */
  function GridCells(inside: (real, real) -> bool, b: Bounds, resolution: int, i: nat): seq<Cell>
    requires resolution != 0
  {
    if i == 0 then []
    else GridCells(inside, b, resolution, i - 1) + RowCells(inside, b, resolution, i - 1, Count(resolution))
  }

  /** Every boundary cell of the grid, in scan order. */
  function BoundaryCells(inside: (real, real) -> bool, b: Bounds, resolution: int): seq<Cell>
    requires resolution != 0
  {
    GridCells(inside, b, resolution, Count(resolution))
  }

  /** The centres of the given cells, one point per cell, in the same order. */
  function Centers(b: Bounds, resolution: int, cells: seq<Cell>): seq<Point>
    requires resolution != 0
  {
    if cells == [] then []
    else Centers(b, resolution, cells[..|cells| - 1]) + [Center(b, resolution, cells[|cells| - 1])]
  }

  lemma {:induction false} CentersShape(b: Bounds, resolution: int, cells: seq<Cell>)
    requires resolution != 0
    ensures |Centers(b, resolution, cells)| == |cells|
    ensures forall k :: 0 <= k < |cells| ==> Centers(b, resolution, cells)[k] == Center(b, resolution, cells[k])
  {
    if cells != [] {
      var init := cells[..|cells| - 1];
      CentersShape(b, resolution, init);
      forall k | 0 <= k < |cells|
        ensures Centers(b, resolution, cells)[k] == Center(b, resolution, cells[k])
      {
        if k < |init| {
          assert cells[k] == init[k];
        }
      }
    }
  }

  lemma CentersAppend(b: Bounds, resolution: int, cells: seq<Cell>, c: Cell)
    requires resolution != 0
    ensures Centers(b, resolution, cells + [c]) == Centers(b, resolution, cells) + [Center(b, resolution, c)]
  {
    assert (cells + [c])[..|cells|] == cells;
  }

  /** One more cell of column i scanned after the cells done: the output grows by that cell's
      centre when it straddles the boundary. */
  lemma ScanStep(inside: (real, real) -> bool, b: Bounds, resolution: int, i: nat, j: nat,
                 done: seq<Cell>, points: seq<Point>, straddles: bool, center: Point)
    requires resolution != 0
    requires points == Centers(b, resolution, done + RowCells(inside, b, resolution, i, j))
    requires straddles == OnBoundary(inside, b, resolution, Cell(i, j))
    requires center == Center(b, resolution, Cell(i, j))
    ensures (if straddles then points + [center] else points)
      == Centers(b, resolution, done + RowCells(inside, b, resolution, i, j + 1))
  {
    var sofar := done + RowCells(inside, b, resolution, i, j);
    if straddles {
      assert done + RowCells(inside, b, resolution, i, j + 1) == sofar + [Cell(i, j)];
      CentersAppend(b, resolution, sofar, Cell(i, j));
    } else {
      assert done + RowCells(inside, b, resolution, i, j + 1) == sofar;
    }
  }

  /** The points the scan emits. */
  function BoundaryPoints(inside: (real, real) -> bool, b: Bounds, resolution: int): seq<Point>
    requires resolution != 0
  {
    Centers(b, resolution, BoundaryCells(inside, b, resolution))
  }

  /** The whole scan, including the division by the resolution that precedes the loops. */
  function ScanGrid(inside: (real, real) -> bool, b: Bounds, resolution: int): Scan
  {
    if resolution == 0 then ZeroDivision else Points(BoundaryPoints(inside, b, resolution))
  }

  /** Cell c comes strictly before cell d in scan order (x-index major, y-index minor). */
  predicate Before(c: Cell, d: Cell)
  {
    c.i < d.i || (c.i == d.i && c.j < d.j)
  }

  lemma {:induction false} RowCellsShape(inside: (real, real) -> bool, b: Bounds, resolution: int, i: nat, j: nat)
    requires resolution != 0
    ensures |RowCells(inside, b, resolution, i, j)| <= j
    ensures forall c :: c in RowCells(inside, b, resolution, i, j) <==>
      c.i == i && c.j < j && OnBoundary(inside, b, resolution, c)
    ensures forall k, l :: 0 <= k < l < |RowCells(inside, b, resolution, i, j)| ==>
      Before(RowCells(inside, b, resolution, i, j)[k], RowCells(inside, b, resolution, i, j)[l])
  {
    if j > 0 {
      RowCellsShape(inside, b, resolution, i, j - 1);
      var prev := RowCells(inside, b, resolution, i, j - 1);
      var row := RowCells(inside, b, resolution, i, j);
      forall k, l | 0 <= k < l < |row| ensures Before(row[k], row[l]) {
        if l >= |prev| {
          assert row[k] == prev[k] && prev[k] in prev;
        }
      }
    }
  }

  lemma {:induction false} GridCellsShape(inside: (real, real) -> bool, b: Bounds, resolution: int, i: nat)
    requires resolution != 0
    ensures |GridCells(inside, b, resolution, i)| <= i * Count(resolution)
    ensures forall c :: c in GridCells(inside, b, resolution, i) <==>
      c.i < i && c.j < Count(resolution) && OnBoundary(inside, b, resolution, c)
    ensures forall k, l :: 0 <= k < l < |GridCells(inside, b, resolution, i)| ==>
      Before(GridCells(inside, b, resolution, i)[k], GridCells(inside, b, resolution, i)[l])
  {
    if i > 0 {
      var n := Count(resolution);
      GridCellsShape(inside, b, resolution, i - 1);
      RowCellsShape(inside, b, resolution, i - 1, n);
      var prev := GridCells(inside, b, resolution, i - 1);
      var row := RowCells(inside, b, resolution, i - 1, n);
      var grid := GridCells(inside, b, resolution, i);
      assert grid == prev + row;
      assert |grid| <= (i - 1) * n + n == i * n;
      forall k, l | 0 <= k < l < |grid| ensures Before(grid[k], grid[l]) {
        if k < |prev| && l >= |prev| {
          assert grid[k] == prev[k] && prev[k] in prev;
          assert grid[l] == row[l - |prev|] && row[l - |prev|] in row;
        } else if l >= |prev| {
          assert grid[k] == row[k - |prev|] && grid[l] == row[l - |prev|];
        }
      }
    }
  }

  /** The scan emits at most resolution * resolution points, and none for a negative resolution. */
  lemma ScanBound(inside: (real, real) -> bool, b: Bounds, resolution: int)
    requires resolution != 0
    ensures |BoundaryPoints(inside, b, resolution)| <= Count(resolution) * Count(resolution)
    ensures resolution < 0 ==> BoundaryPoints(inside, b, resolution) == []
  {
    CentersShape(b, resolution, BoundaryCells(inside, b, resolution));
    GridCellsShape(inside, b, resolution, Count(resolution));
  }

  /** A cell is in the scan's output exactly when it lies in the grid and its corners disagree. */
  lemma ScanMembership(inside: (real, real) -> bool, b: Bounds, resolution: int, c: Cell)
    requires resolution != 0
    ensures c in BoundaryCells(inside, b, resolution) <==>
      && c.i < resolution && c.j < resolution
      && var x, y := CornerX(b, resolution, c), CornerY(b, resolution, c);
         var sx, sy := StepX(b, resolution), StepY(b, resolution);
         !(inside(x, y) == inside(x + sx, y) && inside(x + sx, y) == inside(x + sx, y + sy)
           && inside(x + sx, y + sy) == inside(x, y + sy))
  {
    GridCellsShape(inside, b, resolution, Count(resolution));
  }

  /** Cells, and so their points, come out in increasing x-index, then increasing y-index. */
  lemma ScanOrder(inside: (real, real) -> bool, b: Bounds, resolution: int)
    requires resolution != 0
    ensures forall k, l :: 0 <= k < l < |BoundaryCells(inside, b, resolution)| ==>
      Before(BoundaryCells(inside, b, resolution)[k], BoundaryCells(inside, b, resolution)[l])
  {
    GridCellsShape(inside, b, resolution, Count(resolution));
  }

  /** The centre of cell (i, j), with the corner written as a product. */
  lemma CenterClosedForm(b: Bounds, resolution: int, c: Cell)
    requires resolution != 0
    ensures Center(b, resolution, c) ==
      Point(b.xMin + c.i as real * StepX(b, resolution) + StepX(b, resolution) / 2.0,
            b.yMin + c.j as real * StepY(b, resolution) + StepY(b, resolution) / 2.0)
  {
    OffsetIsProduct(b.xMin, StepX(b, resolution), c.i);
    OffsetIsProduct(b.yMin, StepY(b, resolution), c.j);
  }

  /** The k-th emitted point is the centre of the k-th boundary cell. */
  lemma ScanCenters(inside: (real, real) -> bool, b: Bounds, resolution: int)
    requires resolution != 0
    ensures |BoundaryPoints(inside, b, resolution)| == |BoundaryCells(inside, b, resolution)|
    ensures forall k :: 0 <= k < |BoundaryCells(inside, b, resolution)| ==>
      BoundaryPoints(inside, b, resolution)[k] == Center(b, resolution, BoundaryCells(inside, b, resolution)[k])
  {
    CentersShape(b, resolution, BoundaryCells(inside, b, resolution));
  }

  /** The k-th emitted point, for the k-th boundary cell (i, j), is
      (xMin + i * stepX + stepX / 2, yMin + j * stepY + stepY / 2). */
  lemma ScanCenterClosedForm(inside: (real, real) -> bool, b: Bounds, resolution: int, k: int)
    requires resolution != 0
    requires 0 <= k < |BoundaryPoints(inside, b, resolution)|
    ensures k < |BoundaryCells(inside, b, resolution)|
    ensures var c := BoundaryCells(inside, b, resolution)[k];
      BoundaryPoints(inside, b, resolution)[k] ==
        Point(b.xMin + c.i as real * StepX(b, resolution) + StepX(b, resolution) / 2.0,
              b.yMin + c.j as real * StepY(b, resolution) + StepY(b, resolution) / 2.0)
  {
    var cells := BoundaryCells(inside, b, resolution);
    CentersShape(b, resolution, cells);
    CenterClosedForm(b, resolution, cells[k]);
  }

  /** A boundary cell has a corner inside and a corner outside. */
  lemma BoundaryCellCorners(inside: (real, real) -> bool, b: Bounds, resolution: int, c: Cell)
    requires resolution != 0
    requires OnBoundary(inside, b, resolution, c)
    ensures exists m :: 0 <= m < 4 && inside(Corners(b, resolution, c)[m].x, Corners(b, resolution, c)[m].y)
    ensures exists m :: 0 <= m < 4 && !inside(Corners(b, resolution, c)[m].x, Corners(b, resolution, c)[m].y)
  {
    var cs := Corners(b, resolution, c);
    var in0, in1, in2, in3 := inside(cs[0].x, cs[0].y), inside(cs[1].x, cs[1].y),
      inside(cs[2].x, cs[2].y), inside(cs[3].x, cs[3].y);
    assert Straddles(in0, in1, in2, in3);
    if in0 {
      assert !in1 || !in2 || !in3;
      assert in0 && exists m :: 0 <= m < 4 && !inside(cs[m].x, cs[m].y);
    } else {
      assert in1 || in2 || in3;
      assert !in0 && exists m :: 0 <= m < 4 && inside(cs[m].x, cs[m].y);
    }
  }

  /** Every corner of a cell lies at squared distance (stepX^2 + stepY^2) / 4 from its centre,
      half a cell diagonal. */
  lemma CornersNearCenter(b: Bounds, resolution: int, c: Cell)
    requires resolution != 0
    ensures forall m :: 0 <= m < 4 ==>
      DistSq(Corners(b, resolution, c)[m], Center(b, resolution, c))
        == (StepX(b, resolution) * StepX(b, resolution) + StepY(b, resolution) * StepY(b, resolution)) / 4.0
  {
    var x, y := CornerX(b, resolution, c), CornerY(b, resolution, c);
    var sx, sy := StepX(b, resolution), StepY(b, resolution);
    var cs, p := Corners(b, resolution, c), Center(b, resolution, c);
    assert cs == [Point(x, y), Point(x + sx, y), Point(x + sx, y + sy), Point(x, y + sy)];
    assert p == Point(x + sx / 2.0, y + sy / 2.0);
    RectangleHalfDiagonal(x, y, sx, sy);
    assert DistSq(cs[0], p) == DistSq(cs[1], p) == DistSq(cs[2], p) == DistSq(cs[3], p) == (sx * sx + sy * sy) / 4.0;
  }

  /** The corners of the rectangle with lower-left corner (x, y) and sides sx, sy, against its centre. */
  lemma RectangleHalfDiagonal(x: real, y: real, sx: real, sy: real)
    ensures var p := Point(x + sx / 2.0, y + sy / 2.0);
      var q := (sx * sx + sy * sy) / 4.0;
      && DistSq(Point(x, y), p) == q && DistSq(Point(x + sx, y), p) == q
      && DistSq(Point(x + sx, y + sy), p) == q && DistSq(Point(x, y + sy), p) == q
  {
    var p := Point(x + sx / 2.0, y + sy / 2.0);
    HalfDiagonal(Point(x, y), p, sx, sy);
    HalfDiagonal(Point(x + sx, y), p, sx, sy);
    HalfDiagonal(Point(x + sx, y + sy), p, sx, sy);
    HalfDiagonal(Point(x, y + sy), p, sx, sy);
  }

  /** A point half a step away from p on each axis lies at squared distance a quarter of the
      cell diagonal squared. */
  lemma HalfDiagonal(q: Point, p: Point, sx: real, sy: real)
    requires q.x - p.x == sx / 2.0 || q.x - p.x == -(sx / 2.0)
    requires q.y - p.y == sy / 2.0 || q.y - p.y == -(sy / 2.0)
    ensures DistSq(q, p) == (sx * sx + sy * sy) / 4.0
  {
    var ox, oy := q.x - p.x, q.y - p.y;
    assert ox * ox == (sx / 2.0) * (sx / 2.0);
    assert oy * oy == (sy / 2.0) * (sy / 2.0);
  }

  /** Every emitted point is the centre of a grid cell that has a corner inside and a corner
      outside, each at squared distance (stepX^2 + stepY^2) / 4 from the point. */
  lemma ScanPointStraddles(inside: (real, real) -> bool, b: Bounds, resolution: int, k: int)
    requires resolution != 0
    requires 0 <= k < |BoundaryPoints(inside, b, resolution)|
    ensures k < |BoundaryCells(inside, b, resolution)|
    ensures var c := BoundaryCells(inside, b, resolution)[k];
      && c.i < resolution && c.j < resolution
      && BoundaryPoints(inside, b, resolution)[k] == Center(b, resolution, c)
      && (exists m :: 0 <= m < 4 && inside(Corners(b, resolution, c)[m].x, Corners(b, resolution, c)[m].y))
      && (exists m :: 0 <= m < 4 && !inside(Corners(b, resolution, c)[m].x, Corners(b, resolution, c)[m].y))
      && forall m :: 0 <= m < 4 ==>
           DistSq(Corners(b, resolution, c)[m], BoundaryPoints(inside, b, resolution)[k])
             == (StepX(b, resolution) * StepX(b, resolution) + StepY(b, resolution) * StepY(b, resolution)) / 4.0
  {
    var cells := BoundaryCells(inside, b, resolution);
    CentersShape(b, resolution, cells);
    GridCellsShape(inside, b, resolution, Count(resolution));
    assert cells[k] in cells;
    BoundaryCellCorners(inside, b, resolution, cells[k]);
    CornersNearCenter(b, resolution, cells[k]);
  }

  lemma {:induction false} UniformEmptyRow(inside: (real, real) -> bool, b: Bounds, resolution: int, v: bool, i: nat, j: nat)
    requires resolution != 0
    requires i < Count(resolution) && j <= Count(resolution)
    requires CornersUniform(inside, b, resolution, v)
    ensures RowCells(inside, b, resolution, i, j) == []
  {
    if j > 0 {
      UniformEmptyRow(inside, b, resolution, v, i, j - 1);
      var cs := Corners(b, resolution, Cell(i, j - 1));
      assert inside(cs[0].x, cs[0].y) == v && inside(cs[1].x, cs[1].y) == v;
      assert inside(cs[2].x, cs[2].y) == v && inside(cs[3].x, cs[3].y) == v;
    }
  }

  lemma {:induction false} UniformEmptyGrid(inside: (real, real) -> bool, b: Bounds, resolution: int, v: bool, i: nat)
    requires resolution != 0
    requires i <= Count(resolution)
    requires CornersUniform(inside, b, resolution, v)
    ensures GridCells(inside, b, resolution, i) == []
  {
    if i > 0 {
      UniformEmptyGrid(inside, b, resolution, v, i - 1);
      UniformEmptyRow(inside, b, resolution, v, i - 1, Count(resolution));
    }
  }

  /** When all corners of the grid are classified alike (all inside, or none), no cell
      straddles the boundary and the scan emits nothing. */
  lemma UniformNoPoints(inside: (real, real) -> bool, b: Bounds, resolution: int, v: bool)
    requires resolution != 0
    requires CornersUniform(inside, b, resolution, v)
    ensures BoundaryPoints(inside, b, resolution) == []
  {
    UniformEmptyGrid(inside, b, resolution, v, Count(resolution));
  }

  /** A cell's centre lies strictly between the bounds on one axis. */
  lemma CenterBetween(lo: real, hi: real, n: int, i: int)
    requires lo < hi && 0 <= i < n
    ensures lo < lo + i as real * ((hi - lo) / n as real) + ((hi - lo) / n as real) / 2.0 < hi
  {
    var s := (hi - lo) / n as real;
    var k := (n - 1 - i) as real;
    assert s > 0.0;
    assert n as real * s == hi - lo;
    assert i as real * s >= 0.0;
    assert k * s >= 0.0;
    assert i as real == n as real - 1.0 - k;
    assert i as real * s == n as real * s - s - k * s;
  }

  /** The centre of a cell of the grid lies strictly inside a non-empty rectangle. */
  lemma CenterInBounds(b: Bounds, resolution: int, c: Cell)
    requires b.xMin < b.xMax && b.yMin < b.yMax
    requires c.i < resolution && c.j < resolution
    ensures b.xMin < Center(b, resolution, c).x < b.xMax
    ensures b.yMin < Center(b, resolution, c).y < b.yMax
  {
    OffsetIsProduct(b.xMin, StepX(b, resolution), c.i);
    OffsetIsProduct(b.yMin, StepY(b, resolution), c.j);
    CenterBetween(b.xMin, b.xMax, resolution, c.i);
    CenterBetween(b.yMin, b.yMax, resolution, c.j);
  }

  /** On a non-empty rectangle every emitted point lies strictly inside it. */
  lemma ScanInBounds(inside: (real, real) -> bool, b: Bounds, resolution: int)
    requires b.xMin < b.xMax && b.yMin < b.yMax && resolution > 0
    ensures forall p :: p in BoundaryPoints(inside, b, resolution) ==>
      b.xMin < p.x < b.xMax && b.yMin < p.y < b.yMax
  {
    var cells := BoundaryCells(inside, b, resolution);
    var pts := BoundaryPoints(inside, b, resolution);
    GridCellsShape(inside, b, resolution, Count(resolution));
    CentersShape(b, resolution, cells);
    forall k | 0 <= k < |pts|
      ensures b.xMin < pts[k].x < b.xMax && b.yMin < pts[k].y < b.yMax
    {
      assert cells[k] in cells;
      CenterInBounds(b, resolution, cells[k]);
    }
  }
}
