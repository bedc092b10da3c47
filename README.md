# PolkaDots: a Dafny model of `make_polka`

The PolkaDots plugin turns a photograph into a polka-dot picture. The image
is reduced to a coarse greyscale grid with 120 dots on its fixed
side. Each grid cell becomes a filled circle whose radius grows with the
cell's darkness. The circles are drawn on a canvas of 10 × 10 pixels per
cell that starts out in the background colour.

This project models that algorithm, `make_polka` in
`PolkaDots/process_module.py`, in five modules and one helper module:

- `PolkaTypes` (`polka_types.dfy`): bytes, luminance, RGB colours, grid
  sizes, cells, the downsampled grid, dots and the planner's error
  result.
- `DimensionPlanner` (`dimension_planner.dfy`): the grid size computed
  from the source size. `calc_width = int(H * (120 / W))` is modelled
  as `H * 120 / W` on naturals. The grid is `(calc_width, 120)` when the
  height is the longer or equal side and `(120, calc_width)` otherwise.
  The divisor is the source width in both branches, exactly as the code
  has it. So a portrait source gets a grid at least as wide as it is tall
  (square when 120·H/W < 121, wider otherwise), and the grid's longer
  side can exceed 120 (`PortraitGivesWideGrid`, `LongerSideUnbounded`,
  `PortraitExample`). The code's comment says the maximum is on the
  longest side, so this looks unintended. The model keeps the behaviour
  as written because changing it would change the output geometry.
- `DotGeometry` (`dot_geometry.dfy`): the radius `int(6 * (255 - p) / 255)`
  as integer division, the cell centre `10 * i + 5`, the bounding box
  handed to `draw.ellipse`, and the rasterizer. PIL's ellipse fill is a
  parameter `covers` that may paint any pixels inside the bounding box.
  `Disk` is a concrete instance: an approximation of PIL's rasterizer,
  proved to fit the box.
- `RowMajorOrder` (`row_major_order.dfy`): the visiting order of the two
  nested loops (`y` outer, `x` inner). `RowPrefix(n, y)` (the first n
  cells of row y) and `RowMajor(w, h)` (the first h rows, one after the
  other) are the reference definitions of that order. The `RowMajor`
  lemmas prove that every cell is visited exactly once and that cell
  (x, y) is visited at step `y * w + x`. `DrawDots`'s loop invariants tie
  its visit record to these definitions.
- `PolkaRender` (`polka_render.dfy`): the canvas is an `array2<Rgb>`
  indexed `[x, y]`. `NewCanvas` allocates and fills it. `DrawEllipse`
  overwrites the covered pixels in place and clips them to the canvas.
  `DrawDots` is the nested drawing loop. `MakePolka` runs the whole
  pipeline. The final canvas is stated per pixel: a pixel is the dots
  colour exactly when some cell's dot covers it, and the background colour
  otherwise. In particular, a pixel outside every dot's bounding box stays
  the background colour.
- `NatArith` (`nat_arith.dfy`): two facts about multiplying naturals that
  the planner and disk proofs need.

Loading the image, the greyscale conversion and the resampling are calls
into PIL. `MakePolka` therefore takes the source size and a function
`resize` that returns the greyscale grid of any requested size. The
rasterizer is also a parameter.

The radius and the width use `int(...)`, which truncates rather than
rounds, and the model does the same. So mid grey (128) gets
6·127/255 = 2.988, truncated to radius 2, not 3 (`MidGreyRadius`), and
every luminance from 213 to 255 gets radius 0 (`Radius`).

Two error paths stop the pipeline before any drawing. Both come back as
`Err`, and the caller's batch loop records them.
- A source of width 0 makes the division at line 130 fail (`ZeroSourceWidth`).
- A source with `H * 120 < W` plans a grid with a zero side, which PIL's
  `resize` refuses (`EmptyGrid`). This boundary holds for exact
  arithmetic; the floating-point product moves it (see "## Left out").

## Model

| member | source | states |
|---|---|---|
| `DimensionPlanner.CalcWidth` | PolkaDots/process_module.py:130 | the result is the floor of H·120/W: `cw·W <= H·120 < (cw+1)·W` |
| `DimensionPlanner.HeightIsLonger` | PolkaDots/process_module.py:133 | the test `H == max(H, W)` holds exactly when H >= W, so a square source takes the height branch |
| `DimensionPlanner.Plan` | PolkaDots/process_module.py:129-136 | fails with `ZeroSourceWidth` exactly when W = 0; succeeds exactly when W > 0 and H·120 >= W; on success both sides are >= 1; height-longer-or-equal gives height 120 and width floor(H·120/W); width-longer gives width 120 and height floor(H·120/W), with the divisor W in both branches |
| `DimensionPlanner.PortraitGivesWideGrid` | PolkaDots/process_module.py:130-134 | when 0 < W <= H the plan succeeds with height 120 and width >= 120, so the grid is at least as wide as tall |
| `DimensionPlanner.LandscapeGivesShortGrid` | PolkaDots/process_module.py:130-136 | when H < W and the plan is non-empty, the width is 120 and the height is below 120 |
| `DimensionPlanner.ThinLandscapeIsDegenerate` | PolkaDots/process_module.py:130-136 | a source with H·120 < W plans a grid with a zero side and yields `EmptyGrid` |
| `DimensionPlanner.LongerSideUnbounded` | PolkaDots/process_module.py:122-134 | for every bound there is a source (1 × (bound+1)) whose grid width exceeds it: the 120 maximum does not hold on the longer side |
| `DimensionPlanner.PortraitExample` | PolkaDots/process_module.py:130-134 | a 100 × 200 source plans a 240 × 120 grid |
| `DimensionPlanner.SinglePixelExample` | PolkaDots/process_module.py:130-134 | a 1 × 1 source plans a 120 × 120 grid instead of failing |
| `DimensionPlanner.MidGreyExamplePlan` | PolkaDots/process_module.py:130-136 | a 120 × 80 source plans a 120 × 80 grid |
| `DotGeometry.Radius` | PolkaDots/process_module.py:162 | the radius is in [0, 6]; it is the floor of 6·(255−p)/255; it is 0 exactly for luminance >= 213 and 6 exactly for luminance 0 |
| `DotGeometry.RadiusMonotone` | PolkaDots/process_module.py:162 | the radius is non-increasing in luminance |
| `DotGeometry.MidGreyRadius` | PolkaDots/process_module.py:162 | luminance 128 gives radius 2, because `int` truncates 2.988 |
| `DotGeometry.CentreOf` | PolkaDots/process_module.py:149-165 | the centre `10·i + padding` lies strictly inside cell i's block `[10·i, 10·(i+1))`, equally far from both edges |
| `DotGeometry.DotAt` | PolkaDots/process_module.py:161-168 | the dot of cell (x, y) is centred strictly inside the cell's 10 × 10 block, has radius at most 6 and radius 0 exactly for samples >= 213, and its bounding box reaches at most one pixel past the block on each side |
| `DotGeometry.DiskFitsBox` | PolkaDots/process_module.py:166-168 | the disk rasterizer paints only inside the dot's bounding square `[c−r, c+r]²` |
| `DotGeometry.NeighbourSpansOverlap` | PolkaDots/process_module.py:162-168 | the boxes of two dots one cell apart share a coordinate on that axis exactly when their radii add up to at least 10 |
| `DotGeometry.OnlyNeighboursOverlap` | PolkaDots/process_module.py:162-168 | two dots with radius <= 6 can share a coordinate only if their cells are at most one apart |
| `RowMajorOrder.RowMajorLength` | PolkaDots/process_module.py:158-159 | the two loops make exactly w·h visits |
| `RowMajorOrder.RowMajorAt` | PolkaDots/process_module.py:158-159 | cell (x, y) is visited at step y·w + x |
| `RowMajorOrder.RowMajorInGrid` | PolkaDots/process_module.py:158-159 | every visited cell lies inside the grid |
| `RowMajorOrder.RowMajorIncreasing` | PolkaDots/process_module.py:158-159 | a later step visits a cell in a later row, or further right in the same row |
| `RowMajorOrder.VisitsEachCellOnce` | PolkaDots/process_module.py:158-159 | every cell of the grid is visited at exactly one step |
| `PolkaRender.PaintedByRowMajor` | PolkaDots/process_module.py:158-168 | the pixels covered by the dots of the cells in the row-major order are exactly the pixels covered by the dot of some grid cell |
| `PolkaRender.PaintedStep` | PolkaDots/process_module.py:159-168 | drawing cell (x, y) adds exactly that cell's dot to the painted pixels |
| `PolkaRender.PaintedRowEnd` | PolkaDots/process_module.py:158-159 | finishing row y paints the same pixels as starting row y+1 |
| `PolkaRender.LightGridPaintsOnlyCentres` | PolkaDots/process_module.py:162-168 | when every sample is >= 213, all radii are 0, so only cell-centre pixels can be painted |
| `PolkaRender.NewCanvas` | PolkaDots/process_module.py:152 | the new canvas has the requested size and every pixel is the background colour |
| `PolkaRender.DrawEllipse` | PolkaDots/process_module.py:166-168 | each covered pixel on the canvas becomes the fill colour, whatever it was before; every other pixel, including every pixel outside the bounding box, is unchanged |
| `PolkaRender.DrawDots` | PolkaDots/process_module.py:158-168 | afterwards a pixel is the dots colour exactly when the dot of some cell covers it, and otherwise holds its previous value; the ghost record `visited` equals `RowMajor(w, h)`, and the painted pixels are exactly those covered by the dots of the recorded cells; the draw order itself is fixed by the loop and its invariants, and the final canvas does not depend on it |
| `PolkaRender.MakePolka` | PolkaDots/process_module.py:121-171 | a plan error is returned unchanged with nothing drawn; otherwise the canvas is fresh and 10·w × 10·h for the planned grid; each pixel is the dots colour where some dot covers it and the background colour everywhere else, in particular outside every dot's bounding box; the ghost record `visited` equals `RowMajor(w, h)` and its cells' dots are exactly the painted pixels |

## Left out

- `Image.open(...).convert('L')` and `resize` (lines 126 and 134-136) are
  file decoding and PIL's resampling filter. They are the `resize`
  parameter of `MakePolka`, which must return a grid of the requested size.
- PIL's `draw.ellipse` pixel set (lines 166-168) is a foreign primitive. It
  is the `covers` parameter, constrained only to the bounding box. So the
  model does not decide whether a radius-0 dot paints its centre pixel; the
  `Disk` instance does paint it.
- DimensionPlanner.CalcWidth: the source computes `int(H * (120 / W))` in
  IEEE double arithmetic. When H·120/W is an exact integer, the rounded
  product can fall just below it and truncate one lower. The model gives
  the exact floor, so its results can be one higher than the program's.
  For example, 11 · fl(120/11) = 119.99999999999999. The program then plans
  119 × 120 for an 11 × 11 source, and the model plans 120 × 120.
- DimensionPlanner.Plan and PolkaRender.MakePolka: "succeeds exactly when
  W > 0 and H·120 >= W" holds for exact arithmetic only. At H·120 == W the
  program can fail where the model draws. For a 5880 × 49 source,
  49 · fl(120/5880) = 0.9999999999999999 truncates to 0, so `resize((120, 0))`
  raises, while the model plans 120 × 1. `PortraitGivesWideGrid` is likewise
  stated for exact arithmetic.
- DotGeometry.Radius: the source computes `int(6.0 * ((255 - p) / 255))`
  in floating point; the model uses exact integer division. Where
  6·(255−p)/255 is not an integer it is at least 1/85 away from one, so
  rounding cannot change the truncated value. At p = 0, 85, 170 and 255
  the model gives the exact values 6, 4, 2 and 0.
- The colour triples are PIL tuples; their validation by `Image.new` and
  `draw.ellipse` is not modelled. The model takes them as `Rgb` values
  with byte channels.
- Draw order cannot change the final picture, because every dot uses the same
  colour. `DrawDots` draws in row-major order, as its loops and invariants
  fix, but no postcondition can tell that order apart from another one:
  its ghost record `visited` states which cells were drawn, not when.
- `process` (lines 72-116) is batch orchestration: saving files, QR
  stamping through the host callback, the error log, logging and deleting
  the placeholder. It is I/O.
- `module_info`, `supported_devices`, `required_memory` (lines 29-70) and
  the base-directory global `g_bp` (line 26) are static plugin metadata
  with no logic.
