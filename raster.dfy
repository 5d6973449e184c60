/** The slice of Go's `image`, `image/color` and `image/draw` packages that
    the comparison engine relies on: RGBA colours compared exactly,
    origin-anchored images, and the two `draw.Draw` shapes it uses (filling a
    rectangle with a uniform colour, and copying an image into a rectangle of
    a canvas). A canvas under construction is an `array2<Color>` indexed
    `[y, x]`; a finished image is an immutable `Image` value. */
module Raster {

  newtype byte = x: int | 0 <= x < 256

  /** `color.RGBA`: four 8-bit channels; two colours are equal exactly when
      all four channels are. */
  datatype Color = RGBA(r: byte, g: byte, b: byte, a: byte)

  /** The colour every pixel of a freshly allocated `image.RGBA` holds. */
  const Transparent: Color := RGBA(0, 0, 0, 0)

  datatype Point = Point(x: int, y: int)

  /** `image.Rectangle`: the half-open box [min.x, max.x) x [min.y, max.y). */
  datatype Rectangle = Rectangle(min: Point, max: Point)

  /** Row-major pixels; `rows[y][x]` is the colour at (x, y). */
  datatype Grid = Grid(width: nat, height: nat, rows: seq<seq<Color>>)

  predicate WellFormed(g: Grid) {
    |g.rows| == g.height && forall y :: 0 <= y < |g.rows| ==> |g.rows[y]| == g.width
  }

  /** An image whose bounds are [0, width) x [0, height). */
  type Image = g: Grid | WellFormed(g) witness Grid(0, 0, [])

  function At(img: Image, x: nat, y: nat): Color
    requires x < img.width && y < img.height
  {
    img.rows[y][x]
  }

  /** `img.Bounds()` of an origin-anchored image. */
  function Bounds(img: Image): (r: Rectangle)
    ensures r.min == Point(0, 0)
  {
    Rectangle(Point(0, 0), Point(img.width, img.height))
  }

  function Min(a: nat, b: nat): (m: nat)
    ensures m <= a && m <= b && (m == a || m == b)
  {
    if a <= b then a else b
  }

  function Max(a: nat, b: nat): (m: nat)
    ensures m >= a && m >= b && (m == a || m == b)
  {
    if a >= b then a else b
  }

  /** The image of the given size whose pixel (x, y) is f(x, y). */
  function Tabulate(w: nat, h: nat, f: (nat, nat) -> Color): (img: Image)
    ensures img.width == w && img.height == h
    ensures forall x: nat, y: nat :: x < w && y < h ==> At(img, x, y) == f(x, y)
  {
    Grid(w, h, seq(h, (y: int) requires 0 <= y < h => seq(w, (x: int) requires 0 <= x < w => f(x, y))))
  }

  /** The image a finished canvas holds. */
  function ToImage(canvas: array2<Color>): (img: Image)
    reads canvas
    ensures img.width == canvas.Length1 && img.height == canvas.Length0
    ensures forall x: nat, y: nat :: x < img.width && y < img.height ==> At(img, x, y) == canvas[y, x]
  {
    var h, w := canvas.Length0, canvas.Length1;
    Grid(w, h, seq(h, (y: int) requires 0 <= y < h reads canvas =>
                        seq(w, (x: int) requires 0 <= x < w reads canvas => canvas[y, x])))
  }

  /** Two images are equal when they have the same size and the same pixels. */
  lemma Extensionality(a: Image, b: Image)
    requires a.width == b.width && a.height == b.height
    requires forall x: nat, y: nat :: x < a.width && y < a.height ==> At(a, x, y) == At(b, x, y)
    ensures a == b
  {
    forall y | 0 <= y < a.height
      ensures a.rows[y] == b.rows[y]
    {
      forall x | 0 <= x < a.width
        ensures a.rows[y][x] == b.rows[y][x]
      {
        assert At(a, x, y) == At(b, x, y);
      }
    }
  }

  /** An image of one colour, as `draw.Draw(img, img.Bounds(), image.NewUniform(c), ...)`
      leaves a fresh image. */
  function Solid(w: nat, h: nat, c: Color): (img: Image)
    ensures img.width == w && img.height == h
    ensures forall x: nat, y: nat :: x < w && y < h ==> At(img, x, y) == c
  {
    Tabulate(w, h, (x, y) => c)
  }

  /** `img` with the rectangle [x0, x1) x [y0, y1) painted `c` (clipped to the image). */
  function Paint(img: Image, x0: nat, y0: nat, x1: nat, y1: nat, c: Color): (r: Image)
    ensures r.width == img.width && r.height == img.height
    ensures forall x: nat, y: nat :: x < img.width && y < img.height ==>
              At(r, x, y) == if x0 <= x < x1 && y0 <= y < y1 then c else At(img, x, y)
  {
    Tabulate(img.width, img.height,
             (x: nat, y: nat) => if x0 <= x < x1 && y0 <= y < y1 then c
                       else if x < img.width && y < img.height then At(img, x, y)
                       else Transparent)
  }

  /** The w x h sub-image of `img` whose top-left corner is (x0, y0). */
  function Crop(img: Image, x0: nat, y0: nat, w: nat, h: nat): (r: Image)
    requires x0 + w <= img.width && y0 + h <= img.height
    ensures r.width == w && r.height == h
    ensures forall x: nat, y: nat :: x < w && y < h ==> At(r, x, y) == At(img, x0 + x, y0 + y)
  {
    Tabulate(w, h, (x: nat, y: nat) => if x < w && y < h then At(img, x0 + x, y0 + y) else Transparent)
  }

  /** Number of pixels of colour `c` in a list of rows. */
  function RowsCount(rows: seq<seq<Color>>, c: Color): nat
  {
    if |rows| == 0 then 0 else RowsCount(rows[..|rows| - 1], c) + multiset(rows[|rows| - 1])[c]
  }

  /** Number of pixels of `img` that have colour `c`. */
  function ColorCount(img: Image, c: Color): (n: nat)
    ensures n <= img.width * img.height
  {
    RowsCountBound(img.rows, img.width, c);
    RowsCount(img.rows, c)
  }

  lemma {:induction false} RowsCountBound(rows: seq<seq<Color>>, w: nat, c: Color)
    requires forall y :: 0 <= y < |rows| ==> |rows[y]| == w
    ensures RowsCount(rows, c) <= |rows| * w
  {
    if |rows| > 0 {
      var last := rows[|rows| - 1];
      RowsCountBound(rows[..|rows| - 1], w, c);
      assert multiset(last)[c] <= |multiset(last)| == w;
      assert (|rows| - 1) * w + w == |rows| * w;
    }
  }

  /** `draw.Draw(canvas, image.Rect(x0, y0, x1, y1), image.NewUniform(c), image.Point{}, draw.Over)`
      with an opaque `c`: every pixel of the rectangle, clipped to the canvas, becomes `c`. */
  method FillRect(canvas: array2<Color>, x0: nat, y0: nat, x1: nat, y1: nat, c: Color)
    modifies canvas
    ensures forall y, x :: 0 <= y < canvas.Length0 && 0 <= x < canvas.Length1 ==>
              canvas[y, x] == if x0 <= x < x1 && y0 <= y < y1 then c else old(canvas[y, x])
  {
    var ymax, xmax := Min(y1, canvas.Length0), Min(x1, canvas.Length1);
    var y := y0;
    while y < ymax
      invariant y0 <= y <= Max(y0, ymax)
      invariant forall j, i :: 0 <= j < canvas.Length0 && 0 <= i < canvas.Length1 ==>
                  canvas[j, i] == if x0 <= i < x1 && y0 <= j < y then c else old(canvas[j, i])
    {
      var x := x0;
      while x < xmax
        invariant x0 <= x <= Max(x0, xmax)
        invariant forall j, i :: 0 <= j < canvas.Length0 && 0 <= i < canvas.Length1 ==>
                    canvas[j, i] == if x0 <= i < x1 && (y0 <= j < y || (j == y && i < x)) then c
                                    else old(canvas[j, i])
      {
        canvas[y, x] := c;
        x := x + 1;
      }
      y := y + 1;
    }
  }

  /** `draw.Draw(canvas, image.Rect(x0, y0, x1, y1), src, image.Point{}, draw.Over)`:
      the part of `src` that fits both the rectangle and the canvas is placed with
      its origin at (x0, y0). The target is still blank, and `Over` onto a blank
      pixel leaves exactly the source pixel. */
  method DrawImage(canvas: array2<Color>, x0: nat, y0: nat, x1: nat, y1: nat, src: Image)
    requires forall y, x ::
               (0 <= y < canvas.Length0 && 0 <= x < canvas.Length1 &&
                x0 <= x < x1 && y0 <= y < y1 && x - x0 < src.width && y - y0 < src.height) ==>
               canvas[y, x] == Transparent
    modifies canvas
    ensures forall y, x :: 0 <= y < canvas.Length0 && 0 <= x < canvas.Length1 ==>
              canvas[y, x] == if x0 <= x < x1 && y0 <= y < y1 && x - x0 < src.width && y - y0 < src.height
                              then At(src, x - x0, y - y0) else old(canvas[y, x])
  {
    var ymax := Min(Min(y1, canvas.Length0), y0 + src.height);
    var xmax := Min(Min(x1, canvas.Length1), x0 + src.width);
    var y := y0;
    while y < ymax
      invariant y0 <= y <= Max(y0, ymax)
      invariant forall j, i :: 0 <= j < canvas.Length0 && 0 <= i < canvas.Length1 ==>
                  canvas[j, i] == if x0 <= i < x1 && y0 <= j < y && i - x0 < src.width && j - y0 < src.height
                                  then At(src, i - x0, j - y0) else old(canvas[j, i])
    {
      var x := x0;
      while x < xmax
        invariant x0 <= x <= Max(x0, xmax)
        invariant forall j, i :: 0 <= j < canvas.Length0 && 0 <= i < canvas.Length1 ==>
                    canvas[j, i] == if x0 <= i < x1 && (y0 <= j < y || (j == y && i < x))
                                       && i - x0 < src.width && j - y0 < src.height
                                    then At(src, i - x0, j - y0) else old(canvas[j, i])
      {
        canvas[y, x] := At(src, x - x0, y - y0);
        x := x + 1;
      }
      y := y + 1;
    }
  }
}
