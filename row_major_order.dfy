/** The order in which `make_polka` visits the grid: `for y` outside,
    `for x` inside. */
module RowMajorOrder {
  import opened PolkaTypes

  /** Cell a is drawn before cell b: an earlier row, or the same row further left. */
  predicate CellBefore(a: Cell, b: Cell) {
    a.y < b.y || (a.y == b.y && a.x < b.x)
  }

  /** The first n cells of row y, left to right. */
  function RowPrefix(n: nat, y: nat): seq<Cell>
  {
    seq(n, i requires 0 <= i => Cell(i, y))
  }

  /** The cells of the first h rows of a grid `width` cells wide, in visiting order. */
  function RowMajor(width: nat, h: nat): seq<Cell>
  {
    if h == 0 then [] else RowMajor(width, h - 1) + RowPrefix(width, h - 1)
  }

  /** There are width * h of them. */
  lemma {:induction false} RowMajorLength(width: nat, h: nat)
    ensures |RowMajor(width, h)| == width * h
  {
    if h > 0 {
      RowMajorLength(width, h - 1);
      assert width * h == width * (h - 1) + width;
    }
  }

  /** Cell (x, y) is visited at step y * width + x. */
  lemma {:induction false} RowMajorAt(width: nat, h: nat, x: nat, y: nat)
    requires x < width && y < h
    ensures y * width + x < |RowMajor(width, h)|
    ensures RowMajor(width, h)[y * width + x] == Cell(x, y)
  {
    RowMajorLength(width, h - 1);
    assert (h - 1) * width + width == width * h;
    if y < h - 1 {
      RowMajorAt(width, h - 1, x, y);
      assert y * width + x < (h - 1) * width;
    } else {
      assert y * width == width * (h - 1);
    }
    RowMajorLength(width, h);
  }

  /** Only cells of the grid are visited. */
  lemma {:induction false} RowMajorInGrid(width: nat, h: nat, i: nat)
    requires i < |RowMajor(width, h)|
    ensures RowMajor(width, h)[i].x < width && RowMajor(width, h)[i].y < h
  {
    if h > 0 && i < |RowMajor(width, h - 1)| {
      RowMajorInGrid(width, h - 1, i);
    }
  }

  /** Later steps visit later cells, so no cell is visited twice. */
  lemma {:induction false} RowMajorIncreasing(width: nat, h: nat, i: nat, j: nat)
    requires i < j < |RowMajor(width, h)|
    ensures CellBefore(RowMajor(width, h)[i], RowMajor(width, h)[j])
  {
    var prev := RowMajor(width, h - 1);
    if j < |prev| {
      RowMajorIncreasing(width, h - 1, i, j);
    } else if i < |prev| {
      RowMajorInGrid(width, h - 1, i);
    }
  }

  /** Every cell of a `width` x `h` grid is visited exactly once. */
  lemma VisitsEachCellOnce(width: nat, h: nat, x: nat, y: nat)
    requires x < width && y < h
    ensures exists i :: 0 <= i < |RowMajor(width, h)| && RowMajor(width, h)[i] == Cell(x, y)
    ensures forall i, j ::
              0 <= i < |RowMajor(width, h)| && 0 <= j < |RowMajor(width, h)| &&
              RowMajor(width, h)[i] == Cell(x, y) && RowMajor(width, h)[j] == Cell(x, y)
              ==> i == j
  {
    RowMajorAt(width, h, x, y);
    forall i, j | 0 <= i < |RowMajor(width, h)| && 0 <= j < |RowMajor(width, h)| &&
      RowMajor(width, h)[i] == Cell(x, y) && RowMajor(width, h)[j] == Cell(x, y)
      ensures i == j
    {
      if i < j {
        RowMajorIncreasing(width, h, i, j);
      } else if j < i {
        RowMajorIncreasing(width, h, j, i);
      }
    }
  }
}
