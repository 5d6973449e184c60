/** The pixel diff and the three-panel composite of image.go. Each operation
    is a method that builds its result on a fresh canvas, as the Go code
    does, and is proved equal to a pixel-by-pixel definition
    (`DiffImage`, `CompositeImage`); the mismatch counter is proved equal to
    `DiffCount`. Properties of those definitions are in module ImageLaws. */
module Images {
  import opened Raster

  /** Union of the two sizes: the diff image's bounds. */
  function UnionWidth(left: Image, right: Image): nat { Max(left.width, right.width) }
  function UnionHeight(left: Image, right: Image): nat { Max(left.height, right.height) }

  /** The intersection rectangle, where both images have pixels to compare. */
  function MinWidth(left: Image, right: Image): nat { Min(left.width, right.width) }
  function MinHeight(left: Image, right: Image): nat { Min(left.height, right.height) }

  predicate InIntersection(left: Image, right: Image, x: nat, y: nat) {
    x < MinWidth(left, right) && y < MinHeight(left, right)
  }

  /** Both images have a pixel at (x, y) and the two colours differ. */
  predicate Differs(left: Image, right: Image, x: nat, y: nat) {
    InIntersection(left, right, x, y) && At(left, x, y) != At(right, x, y)
  }

  /** Pixel (x, y) of the diff mask: the highlight colour where the images
      differ in the intersection and everywhere outside it, blank elsewhere. */
  function DiffPixel(left: Image, right: Image, diffColor: Color, x: nat, y: nat): Color {
    if !InIntersection(left, right, x, y) || Differs(left, right, x, y) then diffColor else Transparent
  }

  function DiffImage(left: Image, right: Image, diffColor: Color): (d: Image)
    ensures d.width == UnionWidth(left, right) && d.height == UnionHeight(left, right)
  {
    Tabulate(UnionWidth(left, right), UnionHeight(left, right),
             (x: nat, y: nat) => DiffPixel(left, right, diffColor, x, y))
  }

  /** Number of x < n at which row y of the two images differs. */
  function RowMismatches(left: Image, right: Image, y: nat, n: nat): (k: nat)
    requires y < MinHeight(left, right) && n <= MinWidth(left, right)
    ensures k <= n
  {
    if n == 0 then 0
    else RowMismatches(left, right, y, n - 1) + (if Differs(left, right, n - 1, y) then 1 else 0)
  }

  /** Number of differing pixels in the rows y < m and columns x < n. */
  function Mismatches(left: Image, right: Image, m: nat, n: nat): nat
    requires m <= MinHeight(left, right) && n <= MinWidth(left, right)
  {
    if m == 0 then 0 else Mismatches(left, right, m - 1, n) + RowMismatches(left, right, m - 1, n)
  }

  /** At most every compared pixel differs. */
  lemma {:induction false} MismatchesBound(left: Image, right: Image, m: nat, n: nat)
    requires m <= MinHeight(left, right) && n <= MinWidth(left, right)
    ensures Mismatches(left, right, m, n) <= m * n
  {
    if m > 0 {
      MismatchesBound(left, right, m - 1, n);
      assert (m - 1) * n + n == m * n;
    }
  }

  /** Differing pixels of the intersection. */
  function IntersectionMismatches(left: Image, right: Image): nat {
    Mismatches(left, right, MinHeight(left, right), MinWidth(left, right))
  }

  /** The count `generateDiff` returns: intersection mismatches, then the
      extra rows at full width, then the extra columns only over the
      intersection's rows so that the corner is counted once ... */
  function DiffCount(left: Image, right: Image): nat {
    var w, h := UnionWidth(left, right), UnionHeight(left, right);
    var mw, mh := MinWidth(left, right), MinHeight(left, right);
    IntersectionMismatches(left, right) + Area(h - mh, w) + Area(w - mw, mh)
  }

  /** Pixels in a w x h rectangle. */
  function Area(w: nat, h: nat): nat { w * h }

  /** ... which is the mismatches plus the area of the union outside the
      intersection. */
  lemma DiffCountArea(left: Image, right: Image)
    ensures DiffCount(left, right) == IntersectionMismatches(left, right)
              + UnionWidth(left, right) * UnionHeight(left, right)
              - MinWidth(left, right) * MinHeight(left, right)
  {
    AreaSplit(UnionWidth(left, right), UnionHeight(left, right), MinWidth(left, right), MinHeight(left, right));
  }

  lemma AreaSplit(w: nat, h: nat, mw: nat, mh: nat)
    requires mw <= w && mh <= h
    ensures (h - mh) * w + (w - mw) * mh == w * h - mw * mh
    ensures mw * mh <= w * h
  {
    assert (h - mh) * w == h * w - mh * w;
    assert (w - mw) * mh == w * mh - mw * mh;
    assert mw * mh <= w * mh <= w * h;
  }

  /** The two guarded additions of image.go:27-36 add up to DiffCount. */
  lemma ExtraCount(left: Image, right: Image, mismatches: int, total: int)
    requires mismatches == IntersectionMismatches(left, right)
    requires var w, h := UnionWidth(left, right), UnionHeight(left, right);
             var mw, mh := MinWidth(left, right), MinHeight(left, right);
             total == mismatches + (if mh < h then (h - mh) * w else 0) + (if mw < w then (w - mw) * mh else 0)
    ensures total == DiffCount(left, right)
  {
  }

  /** The three kinds of pixel of the diff mask. */
  lemma DiffImagePixels(left: Image, right: Image, diffColor: Color)
    ensures var d := DiffImage(left, right, diffColor);
      && (forall x: nat, y: nat :: x < MinWidth(left, right) && y < MinHeight(left, right) ==>
            At(d, x, y) == if At(left, x, y) != At(right, x, y) then diffColor else Transparent)
      && (forall x: nat, y: nat ::
            (x < d.width && y < d.height && (x >= MinWidth(left, right) || y >= MinHeight(left, right)))
            ==> At(d, x, y) == diffColor)
  {
  }

  /** The inner loop of generateDiff (image.go:19-24): row y of the
      intersection is compared pixel by pixel; each differing pixel is painted
      on the canvas and counted. */
  method ScanRow(left: Image, right: Image, diffColor: Color, canvas: array2<Color>, y: nat)
    returns (rowPixels: nat)
    requires y < MinHeight(left, right)
    requires canvas.Length0 == UnionHeight(left, right) && canvas.Length1 == UnionWidth(left, right)
    modifies canvas
    ensures rowPixels == RowMismatches(left, right, y, MinWidth(left, right))
    ensures forall j, i :: 0 <= j < canvas.Length0 && 0 <= i < canvas.Length1 ==>
              canvas[j, i] == if j == y && Differs(left, right, i, j) then diffColor else old(canvas[j, i])
  {
    var minWidth := Min(left.width, right.width);
    rowPixels := 0;
    var x := 0;
    while x < minWidth
      invariant 0 <= x <= minWidth
      invariant rowPixels == RowMismatches(left, right, y, x)
      invariant forall j, i :: 0 <= j < canvas.Length0 && 0 <= i < canvas.Length1 ==>
                  canvas[j, i] == if j == y && i < x && Differs(left, right, i, j) then diffColor
                                  else old(canvas[j, i])
    {
      if At(left, x, y) != At(right, x, y) {
        canvas[y, x] := diffColor;
        rowPixels := rowPixels + 1;
      }
      x := x + 1;
    }
  }

  /** The outer loop of generateDiff (image.go:18-25): every row of the
      intersection scanned in turn on a blank canvas. */
  method ScanIntersection(left: Image, right: Image, diffColor: Color, canvas: array2<Color>)
    returns (mismatches: nat)
    requires canvas.Length0 == UnionHeight(left, right) && canvas.Length1 == UnionWidth(left, right)
    requires forall j, i :: 0 <= j < canvas.Length0 && 0 <= i < canvas.Length1 ==> canvas[j, i] == Transparent
    modifies canvas
    ensures mismatches == IntersectionMismatches(left, right)
    ensures forall j, i :: 0 <= j < canvas.Length0 && 0 <= i < canvas.Length1 ==>
              canvas[j, i] == if Differs(left, right, i, j) then diffColor else Transparent
  {
    var minWidth := Min(left.width, right.width);
    var minHeight := Min(left.height, right.height);
    mismatches := 0;
    var y := 0;
    while y < minHeight
      invariant 0 <= y <= minHeight
      invariant mismatches == Mismatches(left, right, y, minWidth)
      invariant forall j, i :: 0 <= j < canvas.Length0 && 0 <= i < canvas.Length1 ==>
                  canvas[j, i] == if j < y && Differs(left, right, i, j) then diffColor else Transparent
    {
      var rowPixels := ScanRow(left, right, diffColor, canvas, y);
      mismatches := mismatches + rowPixels;
      y := y + 1;
    }
  }

  /** The two `draw.Draw` calls of image.go:38-39: the columns right of the
      intersection, then the rows below it, filled with the highlight colour. */
  method HighlightOutside(left: Image, right: Image, diffColor: Color, canvas: array2<Color>)
    requires canvas.Length0 == UnionHeight(left, right) && canvas.Length1 == UnionWidth(left, right)
    requires forall j, i :: 0 <= j < canvas.Length0 && 0 <= i < canvas.Length1 ==>
               canvas[j, i] == if Differs(left, right, i, j) then diffColor else Transparent
    modifies canvas
    ensures forall j, i :: 0 <= j < canvas.Length0 && 0 <= i < canvas.Length1 ==>
              canvas[j, i] == DiffPixel(left, right, diffColor, i, j)
  {
    var width, height := canvas.Length1, canvas.Length0;
    FillRect(canvas, MinWidth(left, right), 0, width, height, diffColor);
    FillRect(canvas, 0, MinHeight(left, right), width, height, diffColor);
  }

  /** generateDiff (image.go:9-42): a canvas of the union size, blank; the
      intersection scanned row by row, each differing pixel painted and
      counted; then the extra rows and columns counted and filled. */
  method GenerateDiff(left: Image, right: Image, diffColor: Color) returns (diff: Image, diffPixels: int)
    ensures diff == DiffImage(left, right, diffColor)
    ensures diff.width == Max(left.width, right.width) && diff.height == Max(left.height, right.height)
    ensures forall x: nat, y: nat :: x < MinWidth(left, right) && y < MinHeight(left, right) ==>
              At(diff, x, y) == if At(left, x, y) != At(right, x, y) then diffColor else Transparent
    ensures forall x: nat, y: nat ::
              (x < diff.width && y < diff.height && (x >= MinWidth(left, right) || y >= MinHeight(left, right)))
              ==> At(diff, x, y) == diffColor
    ensures diffPixels == DiffCount(left, right)
  {
    var width := Max(left.width, right.width);
    var height := Max(left.height, right.height);
    var minWidth := Min(left.width, right.width);
    var minHeight := Min(left.height, right.height);

    var canvas := new Color[height, width]((y, x) => Transparent);
    var mismatches := ScanIntersection(left, right, diffColor, canvas);
    diffPixels := CountOutside(left, right, mismatches);
    HighlightOutside(left, right, diffColor, canvas);
    diff := ToImage(canvas);
    MaskCanvas(left, right, diffColor, canvas);
    DiffImagePixels(left, right, diffColor);
  }

  /** image.go:27-36: the rows below the intersection count at full width,
      the columns right of it only over the intersection's rows. */
  method CountOutside(left: Image, right: Image, mismatches: nat) returns (diffPixels: int)
    requires mismatches == IntersectionMismatches(left, right)
    ensures diffPixels == DiffCount(left, right)
  {
    var width := Max(left.width, right.width);
    var height := Max(left.height, right.height);
    var minWidth := Min(left.width, right.width);
    var minHeight := Min(left.height, right.height);
    diffPixels := mismatches;
    if minHeight < height {
      var rows := height - minHeight;
      diffPixels := diffPixels + rows * width;
    }
    if minWidth < width {
      var columns := width - minWidth;
      diffPixels := diffPixels + columns * minHeight;
    }
    ExtraCount(left, right, mismatches, diffPixels);
  }

  /** A canvas holding the mask pixel by pixel is the mask. */
  lemma MaskCanvas(left: Image, right: Image, diffColor: Color, canvas: array2<Color>)
    requires canvas.Length0 == UnionHeight(left, right) && canvas.Length1 == UnionWidth(left, right)
    requires forall j, i :: 0 <= j < canvas.Length0 && 0 <= i < canvas.Length1 ==>
               canvas[j, i] == DiffPixel(left, right, diffColor, i, j)
    ensures ToImage(canvas) == DiffImage(left, right, diffColor)
  {
    Extensionality(ToImage(canvas), DiffImage(left, right, diffColor));
  }

  /** Pixel (x, y) of the composite: `expected` at the left, `diff` in the
      middle, `actual` at the right, each from its own origin; a pixel no
      panel covers stays blank. */
  function CompositePixel(diff: Image, expected: Image, actual: Image, x: nat, y: nat): Color {
    if x < expected.width then
      (if y < expected.height then At(expected, x, y) else Transparent)
    else if x < expected.width + diff.width then
      (if y < diff.height then At(diff, x - expected.width, y) else Transparent)
    else if x - expected.width - diff.width < actual.width && y < actual.height then
      At(actual, x - expected.width - diff.width, y)
    else Transparent
  }

  function CompositeImage(diff: Image, expected: Image, actual: Image): (c: Image)
    ensures c.width == expected.width + diff.width + actual.width && c.height == diff.height
  {
    Tabulate(expected.width + diff.width + actual.width, diff.height,
             (x: nat, y: nat) => CompositePixel(diff, expected, actual, x, y))
  }

  /** Where each panel shows up in the composite; `expected` and `actual`
      lose the rows below the diff's height. */
  lemma CompositePlacement(diff: Image, expected: Image, actual: Image)
    ensures var c := CompositeImage(diff, expected, actual);
      && (forall x: nat, y: nat :: x < expected.width && y < Min(expected.height, diff.height) ==>
            At(c, x, y) == At(expected, x, y))
      && (forall x: nat, y: nat :: expected.width <= x < expected.width + diff.width && y < diff.height ==>
            At(c, x, y) == At(diff, x - expected.width, y))
      && (forall x: nat, y: nat ::
            (expected.width + diff.width <= x < c.width && y < Min(actual.height, diff.height)) ==>
            At(c, x, y) == At(actual, x - expected.width - diff.width, y))
      && (forall x: nat, y: nat ::
            (x < c.width && y < c.height && (x < expected.width ==> y >= expected.height)
             && (x >= expected.width + diff.width ==> y >= actual.height) && !(expected.width <= x < expected.width + diff.width)) ==>
            At(c, x, y) == Transparent)
  {
  }

  /** The three `draw.Draw` calls of generateComposite on its blank canvas. */
  method DrawPanels(canvas: array2<Color>, diff: Image, expected: Image, actual: Image)
    requires canvas.Length0 == diff.height && canvas.Length1 == expected.width + diff.width + actual.width
    requires forall j, i :: 0 <= j < canvas.Length0 && 0 <= i < canvas.Length1 ==> canvas[j, i] == Transparent
    modifies canvas
    ensures forall j, i :: 0 <= j < canvas.Length0 && 0 <= i < canvas.Length1 ==>
              canvas[j, i] == CompositePixel(diff, expected, actual, i, j)
  {
    var width := canvas.Length1;
    DrawImage(canvas, 0, 0, expected.width, expected.height, expected);
    DrawImage(canvas, expected.width, 0, expected.width + diff.width, diff.height, diff);
    DrawImage(canvas, expected.width + diff.width, 0, width, actual.height, actual);
  }

  /** generateCompositeImage (image.go:45-86): a blank canvas as wide as the
      three images together and as tall as the diff, with `expected`, `diff`
      and `actual` drawn at x-offsets 0, expected.width and
      expected.width + diff.width. */
  method GenerateComposite(diff: Image, expected: Image, actual: Image) returns (composite: Image)
    ensures composite.width == expected.width + diff.width + actual.width
    ensures composite.height == diff.height
    ensures forall x: nat, y: nat :: x < expected.width && y < Min(expected.height, diff.height) ==>
              At(composite, x, y) == At(expected, x, y)
    ensures forall x: nat, y: nat :: expected.width <= x < expected.width + diff.width && y < diff.height ==>
              At(composite, x, y) == At(diff, x - expected.width, y)
    ensures forall x: nat, y: nat ::
              (expected.width + diff.width <= x < composite.width && y < Min(actual.height, diff.height)) ==>
              At(composite, x, y) == At(actual, x - expected.width - diff.width, y)
    ensures composite == CompositeImage(diff, expected, actual)
  {
    var width := expected.width + diff.width + actual.width;
    var height := diff.height;
    var canvas := new Color[height, width]((y, x) => Transparent);
    DrawPanels(canvas, diff, expected, actual);
    composite := ToImage(canvas);
    Extensionality(composite, CompositeImage(diff, expected, actual));
    CompositePlacement(diff, expected, actual);
  }
}
