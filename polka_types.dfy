/** Values shared by the polka-dot pipeline: colours, luminance samples,
    grid dimensions, the downsampled luminance grid and the per-cell dot. */
module PolkaTypes {

  /** One 8-bit channel value. */
  type Byte = x: int | 0 <= x < 256

  /** A greyscale sample: 0 is black, 255 is white. */
  type Luminance = Byte

  /** An RGB colour triple, as given for `bg_color` and `dots_color`. */
  datatype Rgb = Rgb(red: Byte, green: Byte, blue: Byte)

  /** A raster size, width first, as PIL's `size` and `resize` use it. */
  datatype Dims = Dims(width: nat, height: nat)

  /** A grid cell, addressed (x, y) like `getpixel((x, y))`. */
  datatype Cell = Cell(x: nat, y: nat)

  /** Why a source image cannot be turned into a grid. */
  datatype PlanError =
    | ZeroSourceWidth   // `max_dots / original_image_width` divides by zero
    | EmptyGrid         // the planned grid has a zero side, which `resize` refuses

  datatype Result<T> = Ok(value: T) | Err(error: PlanError)

  /** The downsampled greyscale image: `rows[y][x]` is the sample of cell (x, y). */
  datatype Grid = Grid(width: nat, height: nat, rows: seq<seq<Luminance>>) {

    ghost predicate Valid() {
      |rows| == height && forall y :: 0 <= y < |rows| ==> |rows[y]| == width
    }

    function Shape(): Dims {
      Dims(width, height)
    }

    function At(x: nat, y: nat): Luminance
      requires Valid() && x < width && y < height
    {
      rows[y][x]
    }
  }

  /** A filled circle to draw: centre (cx, cy) and radius r, in canvas pixels. */
  datatype Dot = Dot(cx: int, cy: int, r: nat)
}
