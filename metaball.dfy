/**
  MetaballField: a list of circular blobs, the implicit field they induce, its
  inside/outside test and the grid scan for the field's boundary.
 */
module Metaball {
  import opened BoundaryScan

  /** One metaball generator: centre (x, y) and radius. */
  datatype Blob = Blob(x: real, y: real, radius: real)

  /** Added to the squared distance so that the centre of a blob divides by no zero. */
  const Epsilon: real := 0.0001

  lemma SumOfSquaresNonNegative(dx: real, dy: real)
    ensures dx * dx + dy * dy >= 0.0
  {
    assert dx * dx >= 0.0;
    assert dy * dy >= 0.0;
  }

  /** The contribution of blob b at (px, py): radius squared over squared distance plus Epsilon. */
  function Term(b: Blob, px: real, py: real): (t: real)
    ensures t >= 0.0
  {
    var dx, dy := px - b.x, py - b.y;
    SumOfSquaresNonNegative(dx, dy);
    assert b.radius * b.radius >= 0.0;
    (b.radius * b.radius) / (dx * dx + dy * dy + Epsilon)
  }

  /** The contribution of b, computed from precomputed offsets as the source's loop does. */
  lemma TermFromOffsets(b: Blob, px: real, py: real, dx: real, dy: real, distSq: real)
    requires dx == px - b.x && dy == py - b.y && distSq == dx * dx + dy * dy + Epsilon
    ensures distSq > 0.0 && (b.radius * b.radius) / distSq == Term(b, px, py)
  {
    SumOfSquaresNonNegative(dx, dy);
  }

  /** The field value at (px, py): the sum of the blobs' contributions. */
  function Field(blobs: seq<Blob>, px: real, py: real): (f: real)
    ensures f >= 0.0
  {
    if blobs == [] then 0.0 else Term(blobs[0], px, py) + Field(blobs[1..], px, py)
  }

  /** The inside test of a field with the given blobs and threshold; the threshold value itself is inside. */
  function Inside(blobs: seq<Blob>, threshold: real): (real, real) -> bool
  {
    (px: real, py: real) => Field(blobs, px, py) >= threshold
  }

  /** Appending a blob adds exactly that blob's contribution. */
  lemma {:induction false} FieldAppend(blobs: seq<Blob>, b: Blob, px: real, py: real)
    ensures Field(blobs + [b], px, py) == Field(blobs, px, py) + Term(b, px, py)
  {
    if blobs == [] {
      assert [b][1..] == [];
    } else {
      assert (blobs + [b])[1..] == blobs[1..] + [b];
      FieldAppend(blobs[1..], b, px, py);
    }
  }

  /** The field of two lists together is the sum of their fields. */
  lemma {:induction false} FieldConcat(a: seq<Blob>, c: seq<Blob>, px: real, py: real)
    ensures Field(a + c, px, py) == Field(a, px, py) + Field(c, px, py)
  {
    if a == [] {
      assert a + c == c;
    } else {
      assert (a + c)[1..] == a[1..] + c;
      FieldConcat(a[1..], c, px, py);
    }
  }

  /** Without blobs the field is zero everywhere, so a point is inside exactly when the
      threshold is at most 0. */
  lemma NoBlobsInside(threshold: real, px: real, py: real)
    ensures Field([], px, py) == 0.0
    ensures Inside([], threshold)(px, py) <==> threshold <= 0.0
  {
  }

  /** A single blob's field reaches the threshold exactly where
      radius^2 >= threshold * (squared distance + Epsilon). */
  lemma SingleBlobInside(b: Blob, threshold: real, px: real, py: real)
    ensures Inside([b], threshold)(px, py) <==>
      b.radius * b.radius >= threshold * ((px - b.x) * (px - b.x) + (py - b.y) * (py - b.y) + Epsilon)
  {
    var dx, dy := px - b.x, py - b.y;
    var d := dx * dx + dy * dy + Epsilon;
    var r2 := b.radius * b.radius;
    SumOfSquaresNonNegative(dx, dy);
    assert r2 >= 0.0;
    assert [b][1..] == [];
    assert Field([b], px, py) == r2 / d;
    if threshold <= 0.0 {
      assert threshold * d <= 0.0;
    } else {
      assert r2 / d * d == r2;
      if r2 / d >= threshold {
        assert r2 / d * d >= threshold * d;
      }
      if r2 >= threshold * d {
        assert r2 / d >= threshold * d / d;
      }
    }
  }

  /** Inside-ness of a single blob never increases with the distance from its centre. */
  lemma SingleBlobCloserInside(b: Blob, threshold: real, px: real, py: real, qx: real, qy: real)
    requires (qx - b.x) * (qx - b.x) + (qy - b.y) * (qy - b.y) <= (px - b.x) * (px - b.x) + (py - b.y) * (py - b.y)
    requires Inside([b], threshold)(px, py)
    ensures Inside([b], threshold)(qx, qy)
  {
    SingleBlobInside(b, threshold, px, py);
    SingleBlobInside(b, threshold, qx, qy);
    var dp := (px - b.x) * (px - b.x) + (py - b.y) * (py - b.y) + Epsilon;
    var dq := (qx - b.x) * (qx - b.x) + (qy - b.y) * (qy - b.y) + Epsilon;
    if threshold > 0.0 {
      assert threshold * dq <= threshold * dp;
    } else {
      assert Field([b], qx, qy) >= 0.0;
    }
  }

  /** A field without blobs has no boundary on any grid, whatever the threshold: every
      corner is classified alike. */
  lemma EmptyFieldNoBoundary(threshold: real, bounds: Bounds, resolution: int)
    requires resolution != 0
    ensures BoundaryPoints(Inside([], threshold), bounds, resolution) == []
  {
    var v := threshold <= 0.0;
    forall i, j, m | 0 <= i < Count(resolution) && 0 <= j < Count(resolution) && 0 <= m < 4
      ensures Inside([], threshold)(Corners(bounds, resolution, Cell(i, j))[m].x,
                                    Corners(bounds, resolution, Cell(i, j))[m].y) == v
    {
      var p := Corners(bounds, resolution, Cell(i, j))[m];
      NoBlobsInside(threshold, p.x, p.y);
    }
    UniformNoPoints(Inside([], threshold), bounds, resolution, v);
  }

  /** The condition of SingleBlobInside for point p: radius^2 >= threshold * (|p - centre|^2 + Epsilon). */
  predicate ReachesThreshold(b: Blob, threshold: real, p: Point)
  {
    b.radius * b.radius >= threshold * (DistSq(p, Point(b.x, b.y)) + Epsilon)
  }

  lemma InsideReachesThreshold(b: Blob, threshold: real, p: Point)
    ensures Inside([b], threshold)(p.x, p.y) <==> ReachesThreshold(b, threshold, p)
  {
    SingleBlobInside(b, threshold, p.x, p.y);
  }

  /** The scan of one blob is accurate to half a cell diagonal: every emitted point is the
      centre of a cell with a corner where the blob reaches the threshold and a corner where
      it does not, both at squared distance (stepX^2 + stepY^2) / 4 from the point. */
  lemma SingleBlobScanNearBoundary(b: Blob, threshold: real, bounds: Bounds, resolution: int, k: int)
    requires resolution != 0
    ensures 0 <= k < |BoundaryPoints(Inside([b], threshold), bounds, resolution)| ==>
      && k < |BoundaryCells(Inside([b], threshold), bounds, resolution)|
      && var cs := Corners(bounds, resolution, BoundaryCells(Inside([b], threshold), bounds, resolution)[k]);
         var p := BoundaryPoints(Inside([b], threshold), bounds, resolution)[k];
         && (exists m :: 0 <= m < 4 && ReachesThreshold(b, threshold, cs[m]))
         && (exists m :: 0 <= m < 4 && !ReachesThreshold(b, threshold, cs[m]))
         && forall m :: 0 <= m < 4 ==>
              DistSq(cs[m], p) == (StepX(bounds, resolution) * StepX(bounds, resolution)
                                   + StepY(bounds, resolution) * StepY(bounds, resolution)) / 4.0
  {
    var inside := Inside([b], threshold);
    if 0 <= k < |BoundaryPoints(inside, bounds, resolution)| {
      ScanPointStraddles(inside, bounds, resolution, k);
      var cs := Corners(bounds, resolution, BoundaryCells(inside, bounds, resolution)[k]);
      var m :| 0 <= m < 4 && inside(cs[m].x, cs[m].y);
      InsideReachesThreshold(b, threshold, cs[m]);
      var n :| 0 <= n < 4 && !inside(cs[n].x, cs[n].y);
      InsideReachesThreshold(b, threshold, cs[n]);
    }
  }

  class MetaballField {
    /** Fixed at construction. */
    const threshold: real
    var blobs: seq<Blob>

    constructor (threshold: real := 1.0)
      ensures this.threshold == threshold && blobs == []
    {
      this.threshold := threshold;
      blobs := [];
    }

    method AddBlob(x: real, y: real, radius: real)
      modifies this
      ensures blobs == old(blobs) + [Blob(x, y, radius)]
      ensures forall px: real, py: real ::
        Field(blobs, px, py) == Field(old(blobs), px, py) + Term(Blob(x, y, radius), px, py)
    {
      blobs := blobs + [Blob(x, y, radius)];
      forall px: real, py: real
        ensures Field(blobs, px, py) == Field(old(blobs), px, py) + Term(Blob(x, y, radius), px, py)
      {
        FieldAppend(old(blobs), Blob(x, y, radius), px, py);
      }
    }

    method ClearBlobs()
      modifies this
      ensures blobs == []
      ensures forall px: real, py: real :: Field(blobs, px, py) == 0.0
    {
      blobs := [];
    }

    method SetBlobs(newBlobs: seq<Blob>)
      modifies this
      ensures |blobs| == |newBlobs| && forall k :: 0 <= k < |newBlobs| ==> blobs[k] == newBlobs[k]
    {
      blobs := newBlobs;
    }

    /** Accumulates the blobs' contributions in order. */
    method FieldValue(x: real, y: real) returns (total: real)
      ensures total == Field(blobs, x, y)
    {
      total := 0.0;
      for k := 0 to |blobs|
        invariant total == Field(blobs[..k], x, y)
      {
        var b := blobs[k];
        var dx := x - b.x;
        var dy := y - b.y;
        var distSq := dx * dx + dy * dy + Epsilon;
        TermFromOffsets(b, x, y, dx, dy, distSq);
        total := total + (b.radius * b.radius) / distSq;
        assert blobs[..k + 1] == blobs[..k] + [b];
        FieldAppend(blobs[..k], b, x, y);
      }
      assert blobs[..|blobs|] == blobs;
    }

    method IsInside(x: real, y: real) returns (inside: bool)
      ensures inside <==> Field(blobs, x, y) >= threshold
    {
      var f := FieldValue(x, y);
      inside := f >= threshold;
    }

    /** Classifies the four corners of cell (i, j) and gives the cell's centre. */
    method ScanCell(bounds: Bounds, resolution: int, stepX: real, stepY: real, i: nat, j: nat)
      returns (straddles: bool, center: Point)
      requires resolution != 0
      requires stepX == (bounds.xMax - bounds.xMin) / resolution as real
      requires stepY == (bounds.yMax - bounds.yMin) / resolution as real
      ensures straddles == OnBoundary(Inside(blobs, threshold), bounds, resolution, Cell(i, j))
      ensures center == Center(bounds, resolution, Cell(i, j))
    {
      var x := bounds.xMin + i as real * stepX;
      var y := bounds.yMin + j as real * stepY;
      CornerFromSteps(bounds, resolution, Cell(i, j), stepX, stepY, x, y);
      var c0 := IsInside(x, y);
      var c1 := IsInside(x + stepX, y);
      var c2 := IsInside(x + stepX, y + stepY);
      var c3 := IsInside(x, y + stepY);
      straddles := !(c0 && c1 && c2 && c3) && (c0 || c1 || c2 || c3);
      center := Point(x + stepX / 2.0, y + stepY / 2.0);
    }

    /** Scans column i of the grid in increasing y-index, appending the centres of straddling
        cells to the points of the cells done before it. */
    method ScanColumn(bounds: Bounds, resolution: int, stepX: real, stepY: real, i: nat,
                      points: seq<Point>, ghost done: seq<Cell>)
      returns (out: seq<Point>)
      requires resolution != 0
      requires stepX == (bounds.xMax - bounds.xMin) / resolution as real
      requires stepY == (bounds.yMax - bounds.yMin) / resolution as real
      requires points == Centers(bounds, resolution, done)
      ensures out == Centers(bounds, resolution,
        done + RowCells(Inside(blobs, threshold), bounds, resolution, i, Count(resolution)))
    {
      ghost var inside := Inside(blobs, threshold);
      assert done + RowCells(inside, bounds, resolution, i, 0) == done;
      out := points;
      for j := 0 to Count(resolution)
        invariant out == Centers(bounds, resolution, done + RowCells(inside, bounds, resolution, i, j))
      {
        var straddles, center := ScanCell(bounds, resolution, stepX, stepY, i, j);
        ScanStep(inside, bounds, resolution, i, j, done, out, straddles, center);
        if straddles {
          out := out + [center];
        }
      }
    }

    /** Scans the grid cell by cell, x-index major, collecting the centres of straddling cells. */
    method GetBoundaryPoints(resolution: int := 100, bounds: Bounds := DefaultBounds) returns (r: Scan)
      ensures r == ScanGrid(Inside(blobs, threshold), bounds, resolution)
    {
      if resolution == 0 {
        return ZeroDivision;
      }
      var stepX := (bounds.xMax - bounds.xMin) / resolution as real;
      var stepY := (bounds.yMax - bounds.yMin) / resolution as real;
      var points: seq<Point> := [];
      for i := 0 to Count(resolution)
        invariant points == Centers(bounds, resolution, GridCells(Inside(blobs, threshold), bounds, resolution, i))
      {
        points := ScanColumn(bounds, resolution, stepX, stepY, i, points,
          GridCells(Inside(blobs, threshold), bounds, resolution, i));
      }
      r := Points(points);
    }
  }
}
