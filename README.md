# Metaball field and blob physics of the manim-hero demo

This project models the two classes of `manim-hero/dem_hero.py` that hold logic rather than rendering, and proves properties of them.

- **`MetaballField`** holds a list of circular blobs `(x, y, radius)`. It evaluates the implicit field they induce: the sum of `r² / (dx² + dy² + 0.0001)` over the blobs. It tests a point against a threshold. It collects boundary points by scanning a `resolution × resolution` grid of cells over a rectangle. A cell counts as a boundary cell when its four corners are mixed, some inside and some outside, and the scan emits that cell's centre.
- **`BlobPhysics`** is a damped spring that moves a blob one tick toward a target. It then stretches the blob's radius in proportion to its speed, clamped at a maximum.

The model has three modules:

- `BoundaryScan` (`boundary_scan.dfy`) states the grid scan as functions over an arbitrary inside/outside classification `inside: (real, real) -> bool`. It proves the scan's properties:
  - the output bound;
  - which cells are boundary cells;
  - that points sit at cell centres;
  - the order of the points;
  - that every point lies inside the rectangle.
- `Metaball` (`metaball.dfy`) defines the blob field, proves facts about it, and instantiates the scan with `Inside(blobs, threshold)`. Its class `MetaballField` keeps the blob list as a mutable field. The methods `FieldValue` and `GetBoundaryPoints` keep the source's loops and are proved against the specification functions.
- `Physics` (`physics.dfy`) defines one spring tick `Spring` and the stretched radius `StretchedRadius` as functions. Its class `BlobPhysics` updates its fields in place, and `Update` is proved to reach exactly the state `Spring` gives.

All arithmetic is over Dafny's exact `real`s, not binary floating point. The square root of the numeric library is passed in as a parameter `sqrt`. The predicate `IsSqrt` describes it: a non-negative value whose square is its argument.

A zero resolution makes the source divide by zero before the scan starts. The model returns `ZeroDivision` in that case. A negative resolution gives a negative step and an empty range, so the model returns no points.

## Model

| member | source | states |
|---|---|---|
| Metaball.MetaballField.constructor | manim-hero/dem_hero.py:88-90 | the field keeps the given threshold (default 1.0) and starts with no blobs |
| Metaball.MetaballField.AddBlob | manim-hero/dem_hero.py:92-93 | the blob list grows by exactly the new blob at its end and earlier blobs are unchanged; the field everywhere grows by exactly that blob's term |
| Metaball.MetaballField.ClearBlobs | manim-hero/dem_hero.py:95-96 | the blob list is empty afterwards, and the field is 0 at every point |
| Metaball.MetaballField.SetBlobs | manim-hero/dem_hero.py:98-99 | the blob list has the length of the argument and equals it element by element |
| Metaball.Term | manim-hero/dem_hero.py:104-108 | one blob's contribution is never negative |
| Metaball.Field | manim-hero/dem_hero.py:101-109 | the field, the sum of the blobs' contributions, is never negative |
| Metaball.FieldAppend | manim-hero/dem_hero.py:104-108 | appending a blob to the list adds exactly that blob's contribution to the field |
| Metaball.FieldConcat | manim-hero/dem_hero.py:104-108 | the field of two lists joined is the sum of their fields, so the sum does not depend on how the list is split |
| Metaball.TermFromOffsets | manim-hero/dem_hero.py:105-108 | the loop's squared distance plus 0.0001 is positive, so the division is defined, and the quotient is the blob's contribution |
| Metaball.MetaballField.FieldValue | manim-hero/dem_hero.py:101-109 | the accumulating loop returns exactly the field of the current blobs at (x, y) |
| Metaball.MetaballField.IsInside | manim-hero/dem_hero.py:111-113 | a point is inside iff its field value is at least the threshold; the threshold value itself counts as inside |
| Metaball.NoBlobsInside | manim-hero/dem_hero.py:101-113 | with no blobs the field is 0 everywhere, so a point is inside iff the threshold is at most 0 |
| Metaball.Inside | manim-hero/dem_hero.py:111-113 | reference definition of is_inside: the classification of the plane by field value ≥ threshold, on which the scan is instantiated |
| Metaball.SingleBlobInside | manim-hero/dem_hero.py:101-113 | for one blob and any threshold, a point is inside iff radius² ≥ threshold · (squared distance + 0.0001); for a threshold ≤ 0 both sides always hold |
| Metaball.SingleBlobCloserInside | manim-hero/dem_hero.py:101-113 | for one blob and any threshold, any point at most as far from the centre as an inside point is itself inside |
| Metaball.InsideReachesThreshold | manim-hero/dem_hero.py:101-113 | SingleBlobInside for a point p: inside iff radius² ≥ threshold · (\|p − centre\|² + 0.0001) |
| Metaball.SingleBlobScanNearBoundary | manim-hero/dem_hero.py:115-144 | for one blob, every emitted point is the centre of a cell with a corner where radius² ≥ threshold · (\|corner − centre\|² + 0.0001) and a corner where that fails, both at squared distance (step_x² + step_y²)/4 from the point: the scan is accurate to half a cell diagonal |
| Metaball.EmptyFieldNoBoundary | manim-hero/dem_hero.py:115-144 | with no blobs, for any threshold, no grid finds any boundary point: every corner is classified alike |
| Metaball.MetaballField.ScanCell | manim-hero/dem_hero.py:128-142 | inside one cell, computes its corner from i·step and j·step, decides "not all and any" of the four corner tests exactly as the scan's definition does, and computes the cell's centre |
| Metaball.MetaballField.ScanColumn | manim-hero/dem_hero.py:127-142 | one pass of the inner loop over column i appends exactly the centres of column i's straddling cells, in increasing j, to the centres of the cells scanned before it (in the full scan, those of columns 0..i−1) |
| Metaball.MetaballField.GetBoundaryPoints | manim-hero/dem_hero.py:115-144 | the nested loops produce exactly the scan of the field's inside test (ZeroDivision for a zero resolution), so every BoundaryScan lemma below holds of its result |
| BoundaryScan.Count | manim-hero/dem_hero.py:126-127 | reference definition of the length of range(resolution): the resolution when positive, otherwise 0 |
| BoundaryScan.StepX | manim-hero/dem_hero.py:121 | reference definition of step_x: (x_max − x_min) / resolution |
| BoundaryScan.StepY | manim-hero/dem_hero.py:122 | reference definition of step_y: (y_max − y_min) / resolution |
| BoundaryScan.CornerX | manim-hero/dem_hero.py:128 | reference definition of the lower-left x of column i: x_min plus i steps |
| BoundaryScan.CornerY | manim-hero/dem_hero.py:129 | reference definition of the lower-left y of row j: y_min plus j steps |
| BoundaryScan.Corners | manim-hero/dem_hero.py:132-137 | reference definition of the four sampled corners, in the scan's order; there are exactly four |
| BoundaryScan.OnBoundary | manim-hero/dem_hero.py:131-140 | reference definition of a boundary cell: "not all and any" of its four corner tests |
| BoundaryScan.Center | manim-hero/dem_hero.py:142 | reference definition of the point emitted for a cell: its corner plus half a step on each axis |
| BoundaryScan.RowCells | manim-hero/dem_hero.py:127-142 | reference definition of the inner loop: the boundary cells of column i with row below j, in increasing row |
| BoundaryScan.GridCells | manim-hero/dem_hero.py:126-142 | reference definition of the outer loop: the boundary cells of the columns below i, column by column |
| BoundaryScan.BoundaryCells | manim-hero/dem_hero.py:126-142 | reference definition of all boundary cells of the grid, in scan order |
| BoundaryScan.Centers | manim-hero/dem_hero.py:141-142 | reference definition of the appended points: the centre of each cell, in order |
| BoundaryScan.Before | manim-hero/dem_hero.py:126-127 | reference definition of the scan order: by column, then by row |
| BoundaryScan.Straddles | manim-hero/dem_hero.py:139-140 | "not all and any" of four corner tests holds iff the four corners are not all equal |
| BoundaryScan.OffsetIsProduct | manim-hero/dem_hero.py:128-129 | the corner coordinate written as repeated addition equals lo + k·step |
| BoundaryScan.CornerFromSteps | manim-hero/dem_hero.py:120-129 | x_min + i·step_x with step_x = (x_max − x_min)/resolution is the scan's corner of cell (i, j), and likewise for y |
| BoundaryScan.CentersShape | manim-hero/dem_hero.py:139-142 | the point list has one entry per boundary cell, and the k-th entry is the centre of the k-th cell |
| BoundaryScan.RowCellsShape | manim-hero/dem_hero.py:127-142 | one pass of the inner loop up to j finds at most j cells; it finds a cell iff it is in column i, its row is below j and it straddles; its cells come out in increasing row order |
| BoundaryScan.GridCellsShape | manim-hero/dem_hero.py:126-142 | the first i passes of the outer loop find at most i·resolution cells; they find a cell iff its column is below i, its row is below resolution and it straddles; the cells come out x-index major, y-index minor |
| BoundaryScan.BoundaryPoints | manim-hero/dem_hero.py:126-142 | reference definition of the points: the centres of the boundary cells in scan order |
| BoundaryScan.ScanGrid | manim-hero/dem_hero.py:115-144 | reference definition of the whole scan: ZeroDivision for a zero resolution, otherwise the points |
| BoundaryScan.ScanBound | manim-hero/dem_hero.py:126-144 | the scan returns at most resolution·resolution points, and none when the resolution is negative |
| BoundaryScan.ScanMembership | manim-hero/dem_hero.py:126-142 | a cell is in the output iff both its indices are below the resolution and its four corners are not all inside and not all outside |
| BoundaryScan.ScanOrder | manim-hero/dem_hero.py:126-142 | the cells, and so the points, come out in increasing i and, within one i, in increasing j |
| BoundaryScan.ScanCenters | manim-hero/dem_hero.py:139-142 | one point per boundary cell, and the k-th emitted point is the centre of the k-th boundary cell |
| BoundaryScan.CenterClosedForm | manim-hero/dem_hero.py:128-142 | the centre of cell (i, j) is (x_min + i·step_x + step_x/2, y_min + j·step_y + step_y/2) |
| BoundaryScan.ScanCenterClosedForm | manim-hero/dem_hero.py:128-142 | the k-th emitted point is (x_min + i·step_x + step_x/2, y_min + j·step_y + step_y/2) for the k-th boundary cell (i, j) |
| BoundaryScan.BoundaryCellCorners | manim-hero/dem_hero.py:131-140 | a boundary cell has a corner inside and a corner outside |
| BoundaryScan.CornersNearCenter | manim-hero/dem_hero.py:128-142 | each of a cell's four corners lies at squared distance (step_x² + step_y²)/4 from the cell's centre |
| BoundaryScan.ScanPointStraddles | manim-hero/dem_hero.py:126-142 | every emitted point is the centre of a grid cell with a corner inside and a corner outside, each at squared distance (step_x² + step_y²)/4 from the point |
| BoundaryScan.UniformNoPoints | manim-hero/dem_hero.py:126-144 | when every corner of every grid cell is classified alike, all inside or all outside, the scan emits nothing |
| BoundaryScan.CenterBetween | manim-hero/dem_hero.py:120-142 | the centre of column i of n equal columns lies strictly between the ends of the axis |
| BoundaryScan.CenterInBounds | manim-hero/dem_hero.py:120-142 | the centre of every grid cell lies strictly inside a non-empty rectangle |
| BoundaryScan.ScanInBounds | manim-hero/dem_hero.py:120-142 | with x_min < x_max, y_min < y_max and a positive resolution, every emitted point lies strictly inside the rectangle |
| Physics.BlobPhysics.constructor | manim-hero/dem_hero.py:253-264 | the body starts at the given position with zero velocity; base radius and radius both equal the given radius |
| Physics.Spring | manim-hero/dem_hero.py:269-281 | reference definition of one tick: vx' = (vx + (tx − x)·0.08)·0.85, x' = x + vx', and likewise for y |
| Physics.StretchedRadius | manim-hero/dem_hero.py:285-286 | reference definition of the radius: base · (1 + stretch factor · 0.3) |
| Physics.SpringRadius | manim-hero/dem_hero.py:266-286 | after one tick the radius is within 15 percent above a non-negative base radius, and a body at rest on its target stays put at its base radius |
| Physics.BlobPhysics.Update | manim-hero/dem_hero.py:266-286 | the new position and velocity are exactly one spring tick, (vx + (tx − x)·0.08)·0.85 then x + vx', whatever dt is; the radius is the stretched radius at the new speed; a non-negative base radius grows by at most 15 percent; a body at rest on its target stays put at its base radius |
| Physics.SpringFixedPoint | manim-hero/dem_hero.py:266-281 | a tick leaves a body unchanged iff the body sits on the target with zero velocity |
| Physics.Ticks | manim-hero/dem_hero.py:605-611 | reference definition of k calls of update toward one target |
| Physics.TicksLast | manim-hero/dem_hero.py:605-611 | k ticks are k − 1 ticks followed by one more, so each further call of update applies one Spring to the state before it |
| Physics.RestIsStable | manim-hero/dem_hero.py:605-611 | a body at rest on its target stays there for any number of ticks, as the demo's per-frame loop calls update |
| Physics.SpringShift | manim-hero/dem_hero.py:266-281 | moving body and target by the same offset moves the result by that offset and leaves the velocity alone: the tick depends only on the distance to the target |
| Physics.SpeedSquared | manim-hero/dem_hero.py:284 | the squared speed is never negative, so its square root is defined |
| Physics.StretchFactor | manim-hero/dem_hero.py:285 | the stretch factor is the smaller of speed / 0.5 and max_stretch − 1 = 0.5: at most both, and equal to one of them; it is non-negative for a non-negative speed and 0 exactly at speed 0 |
| Physics.RadiusBounds | manim-hero/dem_hero.py:285-286 | for a non-negative base radius and speed, the radius lies between the base radius and 1.15 times it, and exceeds the base by at most 0.6 · base · speed, so it tends to the base as the speed tends to 0 |
| Physics.RadiusAtSpeed | manim-hero/dem_hero.py:285-286 | for a positive base radius, the radius equals the base exactly at speed 0 and exceeds it at any positive speed |
| Physics.AxisEnergy | manim-hero/dem_hero.py:269-281 | a quadratic energy 0.068·e² + 0.082·e·v + 0.85·v² of one axis, with e the offset from the target and v the velocity; it is never negative and bounds 0.8·v² and 0.06·e² from above |
| Physics.Energy | manim-hero/dem_hero.py:269-281 | the energy of a body relative to its target, the sum over both axes; never negative |
| Physics.SpringEnergy | manim-hero/dem_hero.py:269-281 | one tick multiplies the energy by exactly the damping 0.85 |
| Physics.Decayed | manim-hero/dem_hero.py:276-277 | reference definition of e · 0.85^k; for e ≥ 0 it lies between 0 and e |
| Physics.DecayedBound | manim-hero/dem_hero.py:276-277 | for e ≥ 0, e · 0.85^k · (1 + 0.15·k) ≤ e, so 0.85^k tends to 0 |
| Physics.ShrinksEachTick | manim-hero/dem_hero.py:605-611 | any measure that each tick multiplies by 0.85 is multiplied by 0.85^k over k ticks |
| Physics.TicksEnergy | manim-hero/dem_hero.py:605-611 | k ticks toward one target multiply the energy by 0.85^k |
| Physics.EnergyBounds | manim-hero/dem_hero.py:269-284 | 0.8 times the squared speed and 0.06 times the squared distance to the target are at most the energy |
| Physics.TicksConverge | manim-hero/dem_hero.py:605-611 | after k ticks toward one target, 0.8 · speed² and 0.06 · distance² are at most E₀ · 0.85^k, which is at most E₀ / (1 + 0.15·k): the body converges to the target and comes to rest |
| Physics.BlobPhysics.GetPosition | manim-hero/dem_hero.py:288-289 | returns the current (x, y) and changes nothing |

## Left out

- `VideoTexture` is not modelled. It is video decoding and frame caching through OpenCV, which is file I/O and a foreign library.
- `MetaballMobject.generate_points` is not modelled. It calls scipy's convex hull and the rendering library's smooth-path and circle constructors, whose behaviour is not visible here. Its fallback to a single point below three boundary points is also left out. `BoundaryScan.UniformNoPoints` gives the case that always reaches that fallback: when no grid corner is inside, or every one is, there are no points at all.
- `VideoMaskedText`, the animation scenes and their ellipse-stretching and breathing-circle drawing are not modelled. They are text layout, camera work, timing, and rendering through `arctan2` and `sin`.
- Floating-point rounding is not modelled. Every quantity is an exact `real`, so the contracts hold of exact arithmetic and not necessarily of IEEE doubles.
- `Physics.BlobPhysics.Update`: the square root is the parameter `sqrt`, constrained by `IsSqrt`, instead of the numeric library's function.
- `Metaball.MetaballField.SetBlobs` takes well-formed blobs. The source copies every iterable entry into a list, and a non-iterable entry makes `set_blobs` raise at once. An entry that does not unpack into three numbers makes `field_value` fail later. Neither failure is modelled.
- Stiffness, damping and max_stretch are module constants rather than per-object fields, because the class sets them once and never reassigns them. The base radius and the threshold are `const` fields for the same reason.
- Physics: no "no overshoot" property is claimed. The spring tick is an underdamped linear recurrence with complex eigenvalues, so a body released away from its target passes it and oscillates back. Convergence is proved instead (`Physics.TicksConverge`): the energy falls by the factor 0.85 per tick, the squared speed and squared distance are bounded by it, and with `Physics.RadiusBounds` the radius tends to the base radius.
- Metaball: it is not claimed that, for a threshold of at most 1, a single blob's disc of its own radius is inside. The 0.0001 added to the squared distance makes that fail on the rim. `Metaball.SingleBlobInside` states the exact condition instead.
- Metaball.SingleBlobScanNearBoundary: states the accuracy of a one-blob scan as corners on both sides of the level set radius² = threshold · (squared distance + 0.0001), within half a cell diagonal of each point, and not as a distance to the blob's circle, because a distance needs square roots and the 0.0001 term moves the level set off the circle of the blob's radius.
- `dt` is accepted by `Physics.BlobPhysics.Update` and, as in the source, not used.
