/** The canvas compositor and dot renderer of `make_polka`: a canvas of
    `multiplier` pixels per cell filled with the background colour, then one
    dot per grid cell drawn in place, rows top to bottom, cells left to right. */
module PolkaRender {
  import opened PolkaTypes
  import opened DimensionPlanner
  import opened DotGeometry
  import opened RowMajorOrder

  /** Some cell visited before cell (x0, y0) has pixel (px, py) in its dot. */
  ghost predicate PaintedBefore(g: Grid, covers: Rasterizer, x0: nat, y0: nat, px: int, py: int)
    requires g.Valid()
  {
    exists x: nat, y: nat ::
      x < g.width && y < g.height && CellBefore(Cell(x, y), Cell(x0, y0)) &&
      covers(DotAt(g, x, y), px, py)
  }

  /** Some cell of the grid has pixel (px, py) in its dot. */
  ghost predicate Painted(g: Grid, covers: Rasterizer, px: int, py: int)
    requires g.Valid()
  {
    PaintedBefore(g, covers, 0, g.height, px, py)
  }

  /** Some cell of the visit record `cells` has pixel (px, py) in its dot. */
  ghost predicate PaintedBy(g: Grid, covers: Rasterizer, cells: seq<Cell>, px: int, py: int)
    requires g.Valid()
  {
    exists k ::
      0 <= k < |cells| && cells[k].x < g.width && cells[k].y < g.height &&
      covers(DotAt(g, cells[k].x, cells[k].y), px, py)
  }

  /** The pixels painted by the cells of the row-major visit order are
      exactly the pixels painted by some cell of the grid. */
  lemma PaintedByRowMajor(g: Grid, covers: Rasterizer, px: int, py: int)
    requires g.Valid()
    ensures PaintedBy(g, covers, RowMajor(g.width, g.height), px, py) <==> Painted(g, covers, px, py)
  {
    var order := RowMajor(g.width, g.height);
    if Painted(g, covers, px, py) {
      var x: nat, y: nat :| x < g.width && y < g.height && CellBefore(Cell(x, y), Cell(0, g.height)) &&
                           covers(DotAt(g, x, y), px, py);
      RowMajorAt(g.width, g.height, x, y);
      assert order[y * g.width + x] == Cell(x, y);
    }
    if PaintedBy(g, covers, order, px, py) {
      var k :| 0 <= k < |order| && order[k].x < g.width && order[k].y < g.height &&
               covers(DotAt(g, order[k].x, order[k].y), px, py);
      assert CellBefore(order[k], Cell(0, g.height));
    }
  }

  /** Drawing cell (x, y) adds exactly that cell's dot to what is painted. */
  lemma PaintedStep(g: Grid, covers: Rasterizer, x: nat, y: nat, px: int, py: int)
    requires g.Valid() && x < g.width && y < g.height
    ensures PaintedBefore(g, covers, x + 1, y, px, py) <==>
            PaintedBefore(g, covers, x, y, px, py) || covers(DotAt(g, x, y), px, py)
  {
    if covers(DotAt(g, x, y), px, py) {
      assert CellBefore(Cell(x, y), Cell(x + 1, y));
    }
    if PaintedBefore(g, covers, x + 1, y, px, py) {
      var x': nat, y': nat :| x' < g.width && y' < g.height && CellBefore(Cell(x', y'), Cell(x + 1, y)) &&
                    covers(DotAt(g, x', y'), px, py);
      if x' != x || y' != y {
        assert CellBefore(Cell(x', y'), Cell(x, y));
      }
    }
  }

  /** Finishing row y is the same as starting row y + 1. */
  lemma PaintedRowEnd(g: Grid, covers: Rasterizer, y: nat, px: int, py: int)
    requires g.Valid() && y < g.height
    ensures PaintedBefore(g, covers, g.width, y, px, py) <==> PaintedBefore(g, covers, 0, y + 1, px, py)
  {
    if PaintedBefore(g, covers, 0, y + 1, px, py) {
      var x': nat, y': nat :| x' < g.width && y' < g.height && CellBefore(Cell(x', y'), Cell(0, y + 1)) &&
                    covers(DotAt(g, x', y'), px, py);
      assert CellBefore(Cell(x', y'), Cell(g.width, y));
    }
  }

  /** On a grid whose samples are all light enough for radius 0 (213 and
      above), the only pixels a dot can paint are cell centres. */
  lemma LightGridPaintsOnlyCentres(g: Grid, covers: Rasterizer, px: int, py: int)
    requires g.Valid() && FitsBox(covers)
    requires forall x, y :: 0 <= y < g.height && 0 <= x < g.width ==> g.rows[y][x] >= 213
    requires Painted(g, covers, px, py)
    ensures px % Multiplier == Padding && py % Multiplier == Padding
  {
    var x: nat, y: nat :| x < g.width && y < g.height && CellBefore(Cell(x, y), Cell(0, g.height)) &&
                           covers(DotAt(g, x, y), px, py);
    assert InBox(DotAt(g, x, y), px, py);
    assert Radius(g.At(x, y)) == 0;
  }

  /** `Image.new('RGB', (width, height), bg_color)`: a fresh canvas in the background colour. */
  method NewCanvas(width: nat, height: nat, bg: Rgb) returns (canvas: array2<Rgb>)
    ensures fresh(canvas)
    ensures canvas.Length0 == width && canvas.Length1 == height
    ensures forall px, py :: 0 <= px < width && 0 <= py < height ==> canvas[px, py] == bg
  {
    canvas := new Rgb[width, height]((px, py) => bg);
  }

  /** `draw.ellipse(box, fill=fill)`: paints the pixels the rasterizer covers,
      clipped to the canvas, and leaves every other pixel as it was. The
      second postcondition, nothing outside the bounding box changes,
      follows from the first and `FitsBox`. */
  method DrawEllipse(canvas: array2<Rgb>, d: Dot, fill: Rgb, covers: Rasterizer)
    requires FitsBox(covers)
    modifies canvas
    ensures forall px, py :: 0 <= px < canvas.Length0 && 0 <= py < canvas.Length1 ==>
              canvas[px, py] == if covers(d, px, py) then fill else old(canvas[px, py])
    ensures forall px, py :: 0 <= px < canvas.Length0 && 0 <= py < canvas.Length1 && !InBox(d, px, py) ==>
              canvas[px, py] == old(canvas[px, py])
  {
    forall px, py | 0 <= px < canvas.Length0 && 0 <= py < canvas.Length1 && covers(d, px, py) {
      canvas[px, py] := fill;
    }
  }

  /** The drawing loop: one dot per cell, in row-major order, on a canvas of
      `multiplier` pixels per cell. A pixel ends up in `dots` exactly when
      some cell's dot covers it and is otherwise left as it was; `visited`
      records the cells in the order they were drawn, and the pixels painted
      are exactly those of the recorded cells' dots (the last postcondition
      follows from the others by `PaintedByRowMajor`). */
  method DrawDots(canvas: array2<Rgb>, g: Grid, dots: Rgb, covers: Rasterizer)
    returns (ghost visited: seq<Cell>)
    requires g.Valid() && FitsBox(covers)
    requires canvas.Length0 == Multiplier * g.width && canvas.Length1 == Multiplier * g.height
    modifies canvas
    ensures visited == RowMajor(g.width, g.height)
    ensures forall px, py :: 0 <= px < canvas.Length0 && 0 <= py < canvas.Length1 ==>
              canvas[px, py] == if Painted(g, covers, px, py) then dots else old(canvas[px, py])
    ensures forall px, py :: 0 <= px < canvas.Length0 && 0 <= py < canvas.Length1 ==>
              canvas[px, py] == if PaintedBy(g, covers, visited, px, py) then dots else old(canvas[px, py])
  {
    visited := [];
    for y := 0 to g.height
      invariant visited == RowMajor(g.width, y)
      invariant forall px, py :: 0 <= px < canvas.Length0 && 0 <= py < canvas.Length1 ==>
                  canvas[px, py] == if PaintedBefore(g, covers, 0, y, px, py) then dots else old(canvas[px, py])
    {
      for x := 0 to g.width
        invariant visited == RowMajor(g.width, y) + RowPrefix(x, y)
        invariant forall px, py :: 0 <= px < canvas.Length0 && 0 <= py < canvas.Length1 ==>
                    canvas[px, py] == if PaintedBefore(g, covers, x, y, px, py) then dots else old(canvas[px, py])
      {
        var pixelValue := g.rows[y][x];
        var radius := Radius(pixelValue);
        var centreX, centreY := CentreOf(x), CentreOf(y);
        DrawEllipse(canvas, Dot(centreX, centreY, radius), dots, covers);
        forall px, py | 0 <= px < canvas.Length0 && 0 <= py < canvas.Length1
          ensures canvas[px, py] == if PaintedBefore(g, covers, x + 1, y, px, py) then dots else old(canvas[px, py])
        {
          PaintedStep(g, covers, x, y, px, py);
        }
        visited := visited + [Cell(x, y)];
        assert RowPrefix(x + 1, y) == RowPrefix(x, y) + [Cell(x, y)];
      }
      forall px, py | 0 <= px < canvas.Length0 && 0 <= py < canvas.Length1
        ensures canvas[px, py] == if PaintedBefore(g, covers, 0, y + 1, px, py) then dots else old(canvas[px, py])
      {
        PaintedRowEnd(g, covers, y, px, py);
      }
    }
    forall px, py | 0 <= px < canvas.Length0 && 0 <= py < canvas.Length1
      ensures canvas[px, py] == if PaintedBy(g, covers, visited, px, py) then dots else old(canvas[px, py])
    {
      PaintedByRowMajor(g, covers, px, py);
    }
  }

  /** `make_polka` on a source of `srcWidth` x `srcHeight` pixels. `resize`
      stands for the greyscale image resampled to a requested size. On a
      plan error nothing is drawn; otherwise the canvas is `multiplier`
      times the planned grid, and each pixel is `dots` where some cell's dot
      covers it and `bg` everywhere else, in particular wherever no dot's
      bounding box reaches. The postcondition in terms of `visited` follows
      from `visited == RowMajor(..)` by `PaintedByRowMajor`. */
  method MakePolka(srcWidth: nat, srcHeight: nat, resize: Dims -> Grid, bg: Rgb, dots: Rgb,
                   covers: Rasterizer)
    returns (result: Result<array2<Rgb>>, ghost grid: Grid, ghost visited: seq<Cell>)
    requires FitsBox(covers)
    requires forall d :: resize(d).Valid() && resize(d).Shape() == d
    ensures Plan(srcWidth, srcHeight).Err? ==> result == Err(Plan(srcWidth, srcHeight).error)
    ensures Plan(srcWidth, srcHeight).Ok? ==>
              result.Ok? && fresh(result.value) &&
              grid == resize(Plan(srcWidth, srcHeight).value) &&
              visited == RowMajor(grid.width, grid.height) &&
              result.value.Length0 == Multiplier * grid.width &&
              result.value.Length1 == Multiplier * grid.height
    ensures result.Ok? ==>
              forall px, py :: 0 <= px < result.value.Length0 && 0 <= py < result.value.Length1 ==>
                result.value[px, py] == if Painted(grid, covers, px, py) then dots else bg
    ensures result.Ok? ==>
              forall px, py :: 0 <= px < result.value.Length0 && 0 <= py < result.value.Length1 ==>
                result.value[px, py] == if PaintedBy(grid, covers, visited, px, py) then dots else bg
    ensures result.Ok? ==>
              forall px, py :: 0 <= px < result.value.Length0 && 0 <= py < result.value.Length1 ==>
                ((forall x: nat, y: nat :: x < grid.width && y < grid.height ==> !InBox(DotAt(grid, x, y), px, py))
                 ==> result.value[px, py] == bg)
  {
    var planned := Plan(srcWidth, srcHeight);
    if planned.Err? {
      grid, visited := Grid(0, 0, []), [];
      return Err(planned.error), grid, visited;
    }
    var downsized := resize(planned.value);
    grid := downsized;
    var canvas := NewCanvas(Multiplier * downsized.width, Multiplier * downsized.height, bg);
    visited := DrawDots(canvas, downsized, dots, covers);
    result := Ok(canvas);
  }
}
