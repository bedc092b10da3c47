/** The dimension planner of `make_polka`: from the source size to the size
    of the grid of dots. The divisor is the source width in both branches,
    exactly as the code has it. */
module DimensionPlanner {
  import opened PolkaTypes
  import opened NatArith

  /** The number of dots on the fixed side of the grid. */
  const MaxDots: nat := 120

  /** `int(H * (max_dots / W))`, computed exactly on integers. */
  function CalcWidth(srcWidth: nat, srcHeight: nat): (cw: nat)
    requires srcWidth > 0
    ensures cw * srcWidth <= srcHeight * MaxDots < (cw + 1) * srcWidth
  {
    srcHeight * MaxDots / srcWidth
  }

  /** Whether height is the longer or equal side, as `H == max(H, W)` tests it. */
  predicate HeightIsLonger(srcWidth: nat, srcHeight: nat): (b: bool)
    ensures b <==> srcHeight >= srcWidth
  {
    srcHeight == if srcHeight >= srcWidth then srcHeight else srcWidth
  }

  /** The grid size chosen for a source of `srcWidth` x `srcHeight` pixels,
      or the error that stops `make_polka` before any drawing. */
  function Plan(srcWidth: nat, srcHeight: nat): (r: Result<Dims>)
    ensures r.Err? && r.error == ZeroSourceWidth <==> srcWidth == 0
    ensures r.Ok? <==> srcWidth > 0 && srcHeight * MaxDots >= srcWidth
    ensures r.Ok? ==> r.value.width >= 1 && r.value.height >= 1
    // Height longer or equal: the height is fixed to MaxDots and the width scales.
    ensures r.Ok? && srcHeight >= srcWidth ==>
      r.value.height == MaxDots &&
      r.value.width * srcWidth <= srcHeight * MaxDots < (r.value.width + 1) * srcWidth
    // Width longer: the width is fixed to MaxDots and the height scales, again over srcWidth.
    ensures r.Ok? && srcHeight < srcWidth ==>
      r.value.width == MaxDots &&
      r.value.height * srcWidth <= srcHeight * MaxDots < (r.value.height + 1) * srcWidth
  {
    if srcWidth == 0 then Err(ZeroSourceWidth)
    else
      var cw := CalcWidth(srcWidth, srcHeight);
      var planned := if HeightIsLonger(srcWidth, srcHeight) then Dims(cw, MaxDots) else Dims(MaxDots, cw);
      if cw == 0 then Err(EmptyGrid) else Ok(planned)
  }

  /** With height the longer or equal side, the grid comes out at least as
      wide as it is tall (square only when 120 * H / W is below 121). */
  lemma PortraitGivesWideGrid(srcWidth: nat, srcHeight: nat)
    requires 0 < srcWidth <= srcHeight
    ensures Plan(srcWidth, srcHeight).Ok?
    ensures Plan(srcWidth, srcHeight).value.width >= Plan(srcWidth, srcHeight).value.height == MaxDots
  {
    var cw := CalcWidth(srcWidth, srcHeight);
    MulMono(srcWidth, srcHeight, MaxDots);
    MulCancel(MaxDots, cw + 1, srcWidth);
  }

  /** With width the longer side, the grid height stays below MaxDots. */
  lemma LandscapeGivesShortGrid(srcWidth: nat, srcHeight: nat)
    requires srcHeight < srcWidth && srcHeight * MaxDots >= srcWidth
    ensures Plan(srcWidth, srcHeight).Ok?
    ensures Plan(srcWidth, srcHeight).value.width == MaxDots > Plan(srcWidth, srcHeight).value.height
  {
    var cw := CalcWidth(srcWidth, srcHeight);
    MulCancel(cw, MaxDots, srcWidth);
  }

  /** A very landscape source (`H * 120 < W`) plans an empty grid. */
  lemma ThinLandscapeIsDegenerate(srcWidth: nat, srcHeight: nat)
    requires 0 < srcWidth && srcHeight * MaxDots < srcWidth
    ensures Plan(srcWidth, srcHeight) == Err(EmptyGrid)
  {
    assert CalcWidth(srcWidth, srcHeight) == 0;
  }

  /** Because the portrait branch also divides by the width, the longer
      side of the grid is not bounded by MaxDots: any bound is exceeded
      by some tall, narrow source. */
  lemma LongerSideUnbounded(bound: nat)
    ensures Plan(1, bound + 1).Ok?
    ensures Plan(1, bound + 1).value.width > bound
  {
    assert CalcWidth(1, bound + 1) == (bound + 1) * MaxDots;
  }

  /** A 100 x 200 portrait source gets a 240 x 120 grid: the aspect is inverted. */
  lemma PortraitExample()
    ensures Plan(100, 200) == Ok(Dims(240, 120))
  {
  }

  /** A 1 x 1 source plans a 120 x 120 grid. */
  lemma SinglePixelExample()
    ensures Plan(1, 1) == Ok(Dims(120, 120))
  {
  }

  /** A 120 x 80 landscape source plans a 120 x 80 grid. */
  lemma MidGreyExamplePlan()
    ensures Plan(120, 80) == Ok(Dims(120, 80))
  {
  }
}
