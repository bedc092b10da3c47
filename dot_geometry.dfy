/** Per-cell dot geometry of `make_polka`: the luminance-to-radius mapping,
    the centre of a cell's dot on the canvas, the dot's bounding box, and the
    rasterizer that fills a dot inside that box. */
module DotGeometry {
  import opened PolkaTypes
  import opened NatArith

  /** Canvas pixels per grid cell along each axis. */
  const Multiplier: nat := 10

  /** Offset of a dot's centre from its block's corner: `int(multiplier / 2)`. */
  const Padding: nat := Multiplier / 2

  /** The radius of a black cell's dot, `0.6 * multiplier`. */
  const MaxRadius: nat := 6

  /** `int((0.6 * multiplier) * ((255 - p) / 255))`, computed exactly on integers:
      the largest radius not above 6 * (255 - p) / 255. */
  function Radius(p: Luminance): (r: nat)
    ensures r <= MaxRadius
    ensures r * 255 <= MaxRadius * (255 - p) < (r + 1) * 255
    ensures r == 0 <==> p >= 213
    ensures r == MaxRadius <==> p == 0
  {
    MaxRadius * (255 - p) / 255
  }

  /** Darker cells never get smaller dots. */
  lemma RadiusMonotone(p: Luminance, q: Luminance)
    requires p <= q
    ensures Radius(q) <= Radius(p)
  {
    assert Radius(q) * 255 <= MaxRadius * (255 - p) < (Radius(p) + 1) * 255;
    MulCancel(Radius(q), Radius(p) + 1, 255);
  }

  /** Mid grey (128): 6 * 127 / 255 = 2.988 truncates to 2. */
  lemma MidGreyRadius()
    ensures Radius(128) == 2
  {
  }

  /** The centre coordinate of the cell with index `i` on one axis,
      `i * multiplier + padding`: strictly inside the cell's block. */
  function CentreOf(i: nat): (c: nat)
    ensures Multiplier * i < c < Multiplier * (i + 1)
    ensures c - Multiplier * i == Multiplier * (i + 1) - c
  {
    i * Multiplier + Padding
  }

  /** The dot drawn for cell (x, y) of the grid: its centre lies inside the
      cell's block, its radius is at most 6 and is 0 exactly for light
      samples, and its bounding box reaches at most one pixel past the block. */
  function DotAt(g: Grid, x: nat, y: nat): (d: Dot)
    requires g.Valid() && x < g.width && y < g.height
    ensures Multiplier * x < d.cx < Multiplier * (x + 1)
    ensures Multiplier * y < d.cy < Multiplier * (y + 1)
    ensures d.r <= MaxRadius && (d.r == 0 <==> g.At(x, y) >= 213)
    ensures Multiplier * x - 1 <= d.cx - d.r && d.cx + d.r <= Multiplier * (x + 1) + 1
    ensures Multiplier * y - 1 <= d.cy - d.r && d.cy + d.r <= Multiplier * (y + 1) + 1
  {
    Dot(CentreOf(x), CentreOf(y), Radius(g.At(x, y)))
  }

  /** `c - r <= p <= c + r`: one axis of a dot's bounding box. */
  predicate Span(c: int, r: nat, p: int) {
    c - r <= p <= c + r
  }

  /** The pixel lies in the square `[cx - r, cx + r] x [cy - r, cy + r]`
      passed to `draw.ellipse`. */
  predicate InBox(d: Dot, px: int, py: int) {
    Span(d.cx, d.r, px) && Span(d.cy, d.r, py)
  }

  /** The pixel set of a filled ellipse: which pixels the drawing primitive
      paints for a given dot. */
  type Rasterizer = (Dot, int, int) -> bool

  /** A rasterizer paints only inside the bounding box it is given. */
  ghost predicate FitsBox(covers: Rasterizer) {
    forall d, px, py :: covers(d, px, py) ==> InBox(d, px, py)
  }

  /** A concrete rasterizer: the closed disk around the centre. */
  predicate Disk(d: Dot, px: int, py: int) {
    (px - d.cx) * (px - d.cx) + (py - d.cy) * (py - d.cy) <= d.r * d.r
  }

  /** A square of a number of magnitude above r exceeds r * r. */
  lemma SquareOutside(v: int, r: nat)
    requires v < -(r as int) || v > r
    ensures v * v > r * r
  {
    var a: nat := if v < 0 then -v else v;
    assert a * a == v * v;
    MulMono(r, r + 1, r);
    MulMono(r + 1, a, r + 1);
    MulMono(r + 1, a, a);
    assert (r + 1) * (r + 1) == (r + 1) * r + r + 1;
    assert r * r < (r + 1) * (r + 1) <= a * (r + 1) == (r + 1) * a <= a * a;
  }

  /** A square no larger than r * r bounds the number by r. */
  lemma SquareWithin(v: int, r: nat)
    requires v * v <= r * r
    ensures Span(0, r, v)
  {
    if !Span(0, r, v) {
      SquareOutside(v, r);
    }
  }

  /** A square is never negative. */
  lemma SquareNonNegative(v: int)
    ensures v * v >= 0
  {
    var a: nat := if v < 0 then -v else v;
    assert a * a == v * v;
  }

  /** The disk stays inside its bounding box. */
  lemma DiskFitsBox()
    ensures FitsBox(Disk)
  {
    forall d, px, py | Disk(d, px, py) ensures InBox(d, px, py) {
      var dx, dy := px - d.cx, py - d.cy;
      SquareNonNegative(dx);
      SquareNonNegative(dy);
      SquareWithin(dx, d.r);
      SquareWithin(dy, d.r);
    }
  }

  /** Two dots centred one cell apart on an axis have overlapping spans on
      that axis exactly when their radii add up to at least the spacing. */
  lemma NeighbourSpansOverlap(c: int, r1: nat, r2: nat)
    ensures (exists p :: Span(c, r1, p) && Span(c + Multiplier, r2, p)) <==> r1 + r2 >= Multiplier
  {
    if r1 + r2 >= Multiplier {
      var p := if r2 <= Multiplier then c + Multiplier - r2 else c;
      assert Span(c, r1, p) && Span(c + Multiplier, r2, p);
    }
  }

  /** Dots of cells more than one apart on an axis never share a pixel:
      overlap happens only between neighbouring cells. */
  lemma OnlyNeighboursOverlap(i: nat, j: nat, ri: nat, rj: nat, p: int)
    requires ri <= MaxRadius && rj <= MaxRadius
    requires Span(CentreOf(i), ri, p) && Span(CentreOf(j), rj, p)
    ensures -1 <= i - j <= 1
  {
  }
}
