/** What the diff and composite definitions of module Images promise:
    symmetry, identity, the count is exactly the number of highlighted pixels,
    when the count is zero, the worked cases of the package's tests, and where
    each panel lands in the composite. */
module ImageLaws {
  import opened Raster
  import opened Images

  // ---------------------------------------------------------------------
  // Counting helpers

  lemma {:induction false} RowMismatchesZero(left: Image, right: Image, y: nat, n: nat)
    requires y < MinHeight(left, right) && n <= MinWidth(left, right)
    ensures RowMismatches(left, right, y, n) == 0 <==> forall x: nat :: x < n ==> !Differs(left, right, x, y)
  {
    if n > 0 {
      RowMismatchesZero(left, right, y, n - 1);
    }
  }

  /** No mismatch is counted exactly when no pixel of the block differs. */
  lemma {:induction false} MismatchesZero(left: Image, right: Image, m: nat, n: nat)
    requires m <= MinHeight(left, right) && n <= MinWidth(left, right)
    ensures Mismatches(left, right, m, n) == 0 <==>
            forall x: nat, y: nat :: x < n && y < m ==> !Differs(left, right, x, y)
  {
    if m > 0 {
      MismatchesZero(left, right, m - 1, n);
      RowMismatchesZero(left, right, m - 1, n);
    }
  }

  lemma {:induction false} RowMismatchesSymmetric(left: Image, right: Image, y: nat, n: nat)
    requires y < MinHeight(left, right) && n <= MinWidth(left, right)
    ensures RowMismatches(left, right, y, n) == RowMismatches(right, left, y, n)
  {
    if n > 0 {
      RowMismatchesSymmetric(left, right, y, n - 1);
      assert Differs(left, right, n - 1, y) == Differs(right, left, n - 1, y);
    }
  }

  lemma {:induction false} MismatchesSymmetric(left: Image, right: Image, m: nat, n: nat)
    requires m <= MinHeight(left, right) && n <= MinWidth(left, right)
    ensures Mismatches(left, right, m, n) == Mismatches(right, left, m, n)
  {
    if m > 0 {
      MismatchesSymmetric(left, right, m - 1, n);
      RowMismatchesSymmetric(left, right, m - 1, n);
    }
  }

  // ---------------------------------------------------------------------
  // Symmetry and identity

  /** Swapping the two images changes neither the diff mask nor the count:
      only the two sizes and the symmetric `!=` are used. */
  lemma DiffSymmetric(left: Image, right: Image, diffColor: Color)
    ensures DiffImage(left, right, diffColor) == DiffImage(right, left, diffColor)
    ensures DiffCount(left, right) == DiffCount(right, left)
  {
    MaskSymmetric(left, right, diffColor);
    MismatchesSymmetric(left, right, MinHeight(left, right), MinWidth(left, right));
  }

  lemma MaskSymmetric(left: Image, right: Image, diffColor: Color)
    ensures DiffImage(left, right, diffColor) == DiffImage(right, left, diffColor)
  {
    var d, e := DiffImage(left, right, diffColor), DiffImage(right, left, diffColor);
    forall x: nat, y: nat | x < d.width && y < d.height
      ensures At(d, x, y) == At(e, x, y)
    {
      assert DiffPixel(left, right, diffColor, x, y) == DiffPixel(right, left, diffColor, x, y);
    }
    Extensionality(d, e);
  }

  /** An image compared with itself: count 0 and an all-blank mask. */
  lemma DiffIdentity(img: Image, diffColor: Color)
    ensures DiffCount(img, img) == 0
    ensures DiffImage(img, img, diffColor) == Solid(img.width, img.height, Transparent)
  {
    MismatchesZero(img, img, img.height, img.width);
    Extensionality(DiffImage(img, img, diffColor), Solid(img.width, img.height, Transparent));
  }

  // ---------------------------------------------------------------------
  // The count is the number of highlighted pixels

  lemma {:induction false} AllOneColor(s: seq<Color>, c: Color)
    requires forall i :: 0 <= i < |s| ==> s[i] == c
    ensures multiset(s)[c] == |s|
  {
    if |s| > 0 {
      AllOneColor(s[..|s| - 1], c);
      assert s == s[..|s| - 1] + [s[|s| - 1]];
    }
  }

  /** Counting the highlight colour along a row of the mask. */
  lemma {:induction false} MaskRowPrefix(left: Image, right: Image, diffColor: Color, row: seq<Color>, y: nat, n: nat)
    requires diffColor != Transparent
    requires y < MinHeight(left, right) && n <= MinWidth(left, right) && n <= |row|
    requires forall i :: 0 <= i < n ==> row[i] == DiffPixel(left, right, diffColor, i, y)
    ensures multiset(row[..n])[diffColor] == RowMismatches(left, right, y, n)
  {
    if n > 0 {
      MaskRowPrefix(left, right, diffColor, row, y, n - 1);
      assert row[..n] == row[..n - 1] + [row[n - 1]];
    }
  }

  lemma MaskRowCount(left: Image, right: Image, diffColor: Color, y: nat)
    requires diffColor != Transparent
    requires y < UnionHeight(left, right)
    ensures var row := DiffImage(left, right, diffColor).rows[y];
            multiset(row)[diffColor] ==
              if y < MinHeight(left, right)
              then RowMismatches(left, right, y, MinWidth(left, right)) + (UnionWidth(left, right) - MinWidth(left, right))
              else UnionWidth(left, right)
  {
    if y < MinHeight(left, right) {
      MaskRowInside(left, right, diffColor, y);
    } else {
      MaskRowOutside(left, right, diffColor, y);
    }
  }

  /** A row through the intersection: its mismatches, then the columns past it. */
  lemma MaskRowInside(left: Image, right: Image, diffColor: Color, y: nat)
    requires diffColor != Transparent
    requires y < MinHeight(left, right)
    ensures multiset(DiffImage(left, right, diffColor).rows[y])[diffColor]
            == RowMismatches(left, right, y, MinWidth(left, right)) + (UnionWidth(left, right) - MinWidth(left, right))
  {
    var d := DiffImage(left, right, diffColor);
    var row := d.rows[y];
    var mw := MinWidth(left, right);
    forall i | 0 <= i < mw ensures row[i] == DiffPixel(left, right, diffColor, i, y) {
      assert row[i] == At(d, i, y);
    }
    MaskRowPrefix(left, right, diffColor, row, y, mw);
    var tail := row[mw..];
    forall i | 0 <= i < |tail| ensures tail[i] == diffColor {
      assert tail[i] == At(d, mw + i, y);
    }
    AllOneColor(tail, diffColor);
    assert row == row[..mw] + tail;
  }

  /** A row below the intersection is highlighted throughout. */
  lemma MaskRowOutside(left: Image, right: Image, diffColor: Color, y: nat)
    requires MinHeight(left, right) <= y < UnionHeight(left, right)
    ensures multiset(DiffImage(left, right, diffColor).rows[y])[diffColor] == UnionWidth(left, right)
  {
    var d := DiffImage(left, right, diffColor);
    var row := d.rows[y];
    forall i | 0 <= i < |row| ensures row[i] == diffColor {
      assert row[i] == At(d, i, y);
    }
    AllOneColor(row, diffColor);
  }

  lemma MulStep(a: nat, k: nat)
    ensures a * k + k == (a + 1) * k
  {
  }

  /** How many highlighted pixels row y of the mask holds. */
  function MaskRowTarget(left: Image, right: Image, y: nat): nat {
    if y < MinHeight(left, right)
    then RowMismatches(left, right, y, MinWidth(left, right)) + (UnionWidth(left, right) - MinWidth(left, right))
    else UnionWidth(left, right)
  }

  lemma {:induction false} MaskRowsPrefix(left: Image, right: Image, rows: seq<seq<Color>>, c: Color, m: nat)
    requires m <= |rows|
    requires forall y :: 0 <= y < |rows| ==> multiset(rows[y])[c] == MaskRowTarget(left, right, y)
    ensures var w, mw, mh := UnionWidth(left, right), MinWidth(left, right), MinHeight(left, right);
            RowsCount(rows[..m], c) ==
              if m <= mh then Mismatches(left, right, m, mw) + m * (w - mw)
              else Mismatches(left, right, mh, mw) + mh * (w - mw) + (m - mh) * w
  {
    var w, mw, mh := UnionWidth(left, right), MinWidth(left, right), MinHeight(left, right);
    if m > 0 {
      MaskRowsPrefix(left, right, rows, c, m - 1);
      assert rows[..m][..m - 1] == rows[..m - 1];
      var last := multiset(rows[m - 1])[c];
      assert RowsCount(rows[..m], c) == RowsCount(rows[..m - 1], c) + last;
      if m <= mh {
        assert last == RowMismatches(left, right, m - 1, mw) + (w - mw);
        assert Mismatches(left, right, m, mw) == Mismatches(left, right, m - 1, mw) + RowMismatches(left, right, m - 1, mw);
        MulStep(m - 1, w - mw);
      } else {
        assert last == w;
        MulStep(m - 1 - mh, w);
      }
    }
  }

  /** With a highlight colour distinct from blank, the count is exactly the
      number of highlighted pixels of the mask: each differing pixel of the
      intersection plus every pixel outside it, the corner counted once. */
  lemma HighlightedPixels(left: Image, right: Image, diffColor: Color)
    requires diffColor != Transparent
    ensures DiffCount(left, right) == ColorCount(DiffImage(left, right, diffColor), diffColor)
  {
    var d := DiffImage(left, right, diffColor);
    MaskRowsTargets(left, right, diffColor);
    MaskRowsTotal(left, right, d.rows, diffColor);
  }

  lemma MaskRowsTotal(left: Image, right: Image, rows: seq<seq<Color>>, c: Color)
    requires |rows| == UnionHeight(left, right)
    requires forall y :: 0 <= y < |rows| ==> multiset(rows[y])[c] == MaskRowTarget(left, right, y)
    ensures RowsCount(rows, c) == DiffCount(left, right)
  {
    var w, h, mw, mh := UnionWidth(left, right), UnionHeight(left, right), MinWidth(left, right), MinHeight(left, right);
    MaskRowsPrefix(left, right, rows, c, h);
    assert rows[..h] == rows;
    CountArith(RowsCount(rows, c), IntersectionMismatches(left, right), w, h, mw, mh);
  }

  lemma MaskRowsTargets(left: Image, right: Image, diffColor: Color)
    requires diffColor != Transparent
    ensures var d := DiffImage(left, right, diffColor);
            forall y :: 0 <= y < |d.rows| ==> multiset(d.rows[y])[diffColor] == MaskRowTarget(left, right, y)
  {
    var d := DiffImage(left, right, diffColor);
    forall y | 0 <= y < |d.rows|
      ensures multiset(d.rows[y])[diffColor] == MaskRowTarget(left, right, y)
    {
      MaskRowCount(left, right, diffColor, y);
    }
  }

  lemma CountArith(total: nat, m: nat, w: nat, h: nat, mw: nat, mh: nat)
    requires mh <= h && mw <= w
    requires total == if h <= mh then m + h * (w - mw) else m + mh * (w - mw) + (h - mh) * w
    ensures total == m + (h - mh) * w + (w - mw) * mh
  {
  }

  // ---------------------------------------------------------------------
  // Bounds on the count and when it is zero

  /** The count never exceeds the area of the union. */
  lemma DiffCountBound(left: Image, right: Image)
    ensures DiffCount(left, right) <= UnionWidth(left, right) * UnionHeight(left, right)
  {
    var w, h, mw, mh := UnionWidth(left, right), UnionHeight(left, right), MinWidth(left, right), MinHeight(left, right);
    MismatchesBound(left, right, mh, mw);
    AreaSplit(w, h, mw, mh);
  }

  lemma ProductBelow(mw: nat, mh: nat, w: nat, h: nat)
    requires mw <= w && mh <= h && (mw < w || mh < h) && w > 0 && h > 0
    ensures mw * mh < w * h
  {
    if mw < w {
      assert mw * mh <= mw * h < w * h;
    } else {
      assert mw * mh < mw * h;
    }
  }

  /** A zero count means the images are identical, unless the union has no
      area at all (a zero width or a zero height on both sides). */
  lemma ZeroCountIff(left: Image, right: Image)
    ensures DiffCount(left, right) == 0 <==>
            (left == right || UnionWidth(left, right) == 0 || UnionHeight(left, right) == 0)
  {
    var w, h, mw, mh := UnionWidth(left, right), UnionHeight(left, right), MinWidth(left, right), MinHeight(left, right);
    AreaSplit(w, h, mw, mh);
    MismatchesZero(left, right, mh, mw);
    if left == right {
      DiffIdentity(left, Transparent);
    } else if w == 0 || h == 0 {
      assert w * h == 0;
      assert mw * mh == 0 by { if w == 0 { assert mw == 0; } else { assert mh == 0; } }
    } else if DiffCount(left, right) == 0 {
      if mw < w || mh < h {
        ProductBelow(mw, mh, w, h);
        assert false;
      }
      forall x: nat, y: nat | x < left.width && y < left.height
        ensures At(left, x, y) == At(right, x, y)
      {
        assert !Differs(left, right, x, y);
      }
      Extensionality(left, right);
      assert false;
    }
  }

  /** With equal bounds the count is exactly the number of differing pixels. */
  lemma EqualBoundsCount(left: Image, right: Image)
    requires Bounds(left) == Bounds(right)
    ensures DiffCount(left, right) == IntersectionMismatches(left, right)
    ensures MinWidth(left, right) == left.width && MinHeight(left, right) == left.height
  {
  }

  /** One might expect a change of bounds always to show up as a
      nonzero count; a change between two images without area does not. */
  lemma ZeroAreaBoundsChange()
    ensures var left, right := Solid(2, 0, Transparent), Solid(3, 0, Transparent);
            Bounds(left) != Bounds(right) && DiffCount(left, right) == 0
  {
    var left, right := Solid(2, 0, Transparent), Solid(3, 0, Transparent);
    ZeroCountIff(left, right);
  }

  /** A change of bounds between images with area always gives a nonzero count. */
  lemma BoundsChangeCounts(left: Image, right: Image)
    requires Bounds(left) != Bounds(right)
    requires left.width > 0 && left.height > 0
    ensures DiffCount(left, right) > 0
  {
    ZeroCountIff(left, right);
  }

  // ---------------------------------------------------------------------
  // Worked cases

  lemma {:induction false} SolidRowMismatches(w: nat, h: nat, p: Color, w': nat, h': nat, q: Color, y: nat, n: nat)
    requires var l, r := Solid(w, h, p), Solid(w', h', q); y < MinHeight(l, r) && n <= MinWidth(l, r)
    ensures RowMismatches(Solid(w, h, p), Solid(w', h', q), y, n) == if p == q then 0 else n
  {
    if n > 0 {
      SolidRowMismatches(w, h, p, w', h', q, y, n - 1);
    }
  }

  /** Two single-colour images mismatch on every pixel they share, or on none. */
  lemma {:induction false} SolidMismatches(w: nat, h: nat, p: Color, w': nat, h': nat, q: Color, m: nat)
    requires var l, r := Solid(w, h, p), Solid(w', h', q); m <= MinHeight(l, r)
    ensures var l, r := Solid(w, h, p), Solid(w', h', q);
            Mismatches(l, r, m, MinWidth(l, r)) == if p == q then 0 else m * MinWidth(l, r)
  {
    var l, r := Solid(w, h, p), Solid(w', h', q);
    if m > 0 {
      SolidMismatches(w, h, p, w', h', q, m - 1);
      SolidRowMismatches(w, h, p, w', h', q, m - 1, MinWidth(l, r));
      assert (m - 1) * MinWidth(l, r) + MinWidth(l, r) == m * MinWidth(l, r);
    }
  }

  /** Two single-colour images: the mask is blank on the shared area when
      the colours agree and highlighted everywhere else. */
  lemma SolidMask(w: nat, h: nat, p: Color, w': nat, h': nat, q: Color, diffColor: Color)
    ensures var d := DiffImage(Solid(w, h, p), Solid(w', h', q), diffColor);
            && d.width == Max(w, w') && d.height == Max(h, h')
            && forall x: nat, y: nat :: x < d.width && y < d.height ==>
                 At(d, x, y) == if x < Min(w, w') && y < Min(h, h') && p == q then Transparent else diffColor
  {
    DiffImagePixels(Solid(w, h, p), Solid(w', h', q), diffColor);
  }

  /** 10x10 solid blue against 10x10 solid red: every one of the 100 pixels differs. */
  lemma ExampleSolidColors()
    ensures var blue, red := RGBA(0, 0, 255, 255), RGBA(255, 0, 0, 255);
            DiffCount(Solid(10, 10, blue), Solid(10, 10, red)) == 100
  {
    var e, a := Solid(10, 10, RGBA(0, 0, 255, 255)), Solid(10, 10, RGBA(255, 0, 0, 255));
    assert MinWidth(e, a) == 10 && MinHeight(e, a) == 10;
    assert UnionWidth(e, a) == 10 && UnionHeight(e, a) == 10;
    SolidMismatches(10, 10, RGBA(0, 0, 255, 255), 10, 10, RGBA(255, 0, 0, 255), 10);
    assert IntersectionMismatches(e, a) == 100;
  }

  /** A 2x2 snapshot against a 3x3 image (both blank): the right column and
      the bottom row are highlighted, 5 pixels. */
  lemma ExampleExpectedSmallerCount()
    ensures DiffCount(Solid(2, 2, Transparent), Solid(3, 3, Transparent)) == 5
  {
    var e, a := Solid(2, 2, Transparent), Solid(3, 3, Transparent);
    assert MinWidth(e, a) == 2 && MinHeight(e, a) == 2;
    assert UnionWidth(e, a) == 3 && UnionHeight(e, a) == 3;
    SolidMismatches(2, 2, Transparent, 3, 3, Transparent, 2);
    assert IntersectionMismatches(e, a) == 0;
  }

  lemma ExampleExpectedSmallerMask(diffColor: Color)
    ensures var d := DiffImage(Solid(2, 2, Transparent), Solid(3, 3, Transparent), diffColor);
            && d.width == 3 && d.height == 3
            && forall x: nat, y: nat :: x < 3 && y < 3 ==>
                 At(d, x, y) == if x == 2 || y == 2 then diffColor else Transparent
  {
    SolidMask(2, 2, Transparent, 3, 3, Transparent, diffColor);
  }

  /** A 4x4 snapshot against a 2x2 image (both blank): everything but the
      top-left 2x2 corner is highlighted, 12 pixels. */
  lemma ExampleExpectedLargerCount()
    ensures DiffCount(Solid(4, 4, Transparent), Solid(2, 2, Transparent)) == 12
  {
    var e, a := Solid(4, 4, Transparent), Solid(2, 2, Transparent);
    assert MinWidth(e, a) == 2 && MinHeight(e, a) == 2;
    assert UnionWidth(e, a) == 4 && UnionHeight(e, a) == 4;
    SolidMismatches(4, 4, Transparent, 2, 2, Transparent, 2);
    assert IntersectionMismatches(e, a) == 0;
  }

  lemma ExampleExpectedLargerMask(diffColor: Color)
    ensures var d := DiffImage(Solid(4, 4, Transparent), Solid(2, 2, Transparent), diffColor);
            && d.width == 4 && d.height == 4
            && forall x: nat, y: nat :: x < 4 && y < 4 ==>
                 At(d, x, y) == if x >= 2 || y >= 2 then diffColor else Transparent
  {
    SolidMask(4, 4, Transparent, 2, 2, Transparent, diffColor);
  }

  lemma {:induction false} PatchRowMismatches(base: Image, c: Color, x0: nat, y0: nat, x1: nat, y1: nat, y: nat, n: nat)
    requires forall x: nat, y: nat :: x < base.width && y < base.height ==> At(base, x, y) != c
    requires x0 <= x1 && y < base.height && n <= base.width
    ensures var patched := Paint(base, x0, y0, x1, y1, c);
            RowMismatches(base, patched, y, n) ==
              if y0 <= y < y1 then (if n <= x0 then 0 else if n <= x1 then n - x0 else x1 - x0) else 0
  {
    var patched := Paint(base, x0, y0, x1, y1, c);
    if n > 0 {
      PatchRowMismatches(base, c, x0, y0, x1, y1, y, n - 1);
      assert At(patched, n - 1, y) == if x0 <= n - 1 < x1 && y0 <= y < y1 then c else At(base, n - 1, y);
      assert Differs(base, patched, n - 1, y) <==> x0 <= n - 1 < x1 && y0 <= y < y1;
    }
  }

  /** Rows below m that fall in [y0, y1). */
  function RowsIn(m: nat, y0: nat, y1: nat): nat {
    if m <= y0 then 0 else if m <= y1 then m - y0 else if y0 <= y1 then y1 - y0 else 0
  }

  /** When exactly the rows in [y0, y1) differ, each in k pixels, the count
      over the first m rows is k per such row. */
  lemma {:induction false} BandMismatches(left: Image, right: Image, y0: nat, y1: nat, k: nat, m: nat)
    requires m <= MinHeight(left, right)
    requires forall y :: 0 <= y < MinHeight(left, right) ==>
               RowMismatches(left, right, y, MinWidth(left, right)) == if y0 <= y < y1 then k else 0
    ensures Mismatches(left, right, m, MinWidth(left, right)) == RowsIn(m, y0, y1) * k
  {
    if m > 0 {
      BandMismatches(left, right, y0, y1, k, m - 1);
      if y0 <= m - 1 < y1 {
        assert RowsIn(m, y0, y1) == RowsIn(m - 1, y0, y1) + 1;
        MulStep(RowsIn(m - 1, y0, y1), k);
      } else {
        assert RowsIn(m, y0, y1) == RowsIn(m - 1, y0, y1);
      }
    }
  }

  /** Repainting a rectangle of an image in a colour it does not contain
      changes exactly the pixels of that rectangle. */
  lemma PatchCount(base: Image, c: Color, x0: nat, y0: nat, x1: nat, y1: nat)
    requires forall x: nat, y: nat :: x < base.width && y < base.height ==> At(base, x, y) != c
    requires x0 <= x1 <= base.width && y0 <= y1 <= base.height
    ensures DiffCount(base, Paint(base, x0, y0, x1, y1, c)) == (y1 - y0) * (x1 - x0)
  {
    var a := Paint(base, x0, y0, x1, y1, c);
    EqualBoundsCount(base, a);
    PatchRows(base, c, x0, y0, x1, y1);
    BandMismatches(base, a, y0, y1, x1 - x0, base.height);
    assert RowsIn(base.height, y0, y1) == y1 - y0;
    assert IntersectionMismatches(base, a) == (y1 - y0) * (x1 - x0);
  }

  /** Each row of the rectangle differs in its x1 - x0 pixels, every other row nowhere. */
  lemma PatchRows(base: Image, c: Color, x0: nat, y0: nat, x1: nat, y1: nat)
    requires forall x: nat, y: nat :: x < base.width && y < base.height ==> At(base, x, y) != c
    requires x0 <= x1 <= base.width
    ensures var a := Paint(base, x0, y0, x1, y1, c);
            && MinHeight(base, a) == base.height && MinWidth(base, a) == base.width
            && forall y :: 0 <= y < base.height ==>
                 RowMismatches(base, a, y, base.width) == if y0 <= y < y1 then x1 - x0 else 0
  {
    var a := Paint(base, x0, y0, x1, y1, c);
    forall y | 0 <= y < base.height
      ensures RowMismatches(base, a, y, base.width) == if y0 <= y < y1 then x1 - x0 else 0
    {
      PatchRowMismatches(base, c, x0, y0, x1, y1, y, base.width);
    }
  }

  /** ... and the mask highlights exactly that rectangle. */
  lemma PatchMask(base: Image, c: Color, x0: nat, y0: nat, x1: nat, y1: nat, diffColor: Color)
    requires forall x: nat, y: nat :: x < base.width && y < base.height ==> At(base, x, y) != c
    ensures var d := DiffImage(base, Paint(base, x0, y0, x1, y1, c), diffColor);
            && d.width == base.width && d.height == base.height
            && forall x: nat, y: nat :: x < base.width && y < base.height ==>
                 At(d, x, y) == if x0 <= x < x1 && y0 <= y < y1 then diffColor else Transparent
  {
    var a := Paint(base, x0, y0, x1, y1, c);
    EqualBoundsCount(base, a);
    DiffImagePixels(base, a, diffColor);
  }

  /** A 10x10 image with a 2x2 patch changed at (3, 3): 4 pixels differ, and
      exactly those are highlighted. */
  lemma ExamplePartialDiffCount()
    ensures var e := Solid(10, 10, Transparent);
            DiffCount(e, Paint(e, 3, 3, 5, 5, RGBA(255, 0, 0, 255))) == 4
  {
    PatchCount(Solid(10, 10, Transparent), RGBA(255, 0, 0, 255), 3, 3, 5, 5);
  }

  lemma ExamplePartialDiffMask(diffColor: Color)
    ensures var e := Solid(10, 10, Transparent);
            var d := DiffImage(e, Paint(e, 3, 3, 5, 5, RGBA(255, 0, 0, 255)), diffColor);
            forall x: nat, y: nat :: x < 10 && y < 10 ==>
              At(d, x, y) == if 3 <= x < 5 && 3 <= y < 5 then diffColor else Transparent
  {
    PatchMask(Solid(10, 10, Transparent), RGBA(255, 0, 0, 255), 3, 3, 5, 5, diffColor);
  }

  // ---------------------------------------------------------------------
  // Composite layout

  lemma CropWhole(img: Image)
    ensures Crop(img, 0, 0, img.width, img.height) == img
  {
    Extensionality(Crop(img, 0, 0, img.width, img.height), img);
  }

  /** A panel placed at x-offset `off` of an image is cut back out by
      cropping there, down to the rows both have. */
  lemma PanelCrop(c: Image, off: nat, panel: Image, h: nat)
    requires off + panel.width <= c.width && h <= c.height && h <= panel.height
    requires forall x: nat, y: nat :: x < panel.width && y < h ==> At(c, off + x, y) == At(panel, x, y)
    ensures Crop(c, off, 0, panel.width, h) == Crop(panel, 0, 0, panel.width, h)
  {
    var k, k' := Crop(c, off, 0, panel.width, h), Crop(panel, 0, 0, panel.width, h);
    forall x: nat, y: nat | x < panel.width && y < h
      ensures At(k, x, y) == At(k', x, y)
    {
      assert At(k, x, y) == At(c, off + x, y);
    }
    Extensionality(k, k');
  }

  /** Cutting the composite back into its three panels gives the diff back
      whole, and the top `diff.height` rows of `expected` and `actual`. */
  lemma CompositeShowsDiff(diff: Image, expected: Image, actual: Image)
    ensures Crop(CompositeImage(diff, expected, actual), expected.width, 0, diff.width, diff.height) == diff
  {
    var c := CompositeImage(diff, expected, actual);
    DiffPanel(diff, expected, actual);
    PanelCrop(c, expected.width, diff, diff.height);
    CropWhole(diff);
  }

  lemma DiffPanel(diff: Image, expected: Image, actual: Image)
    ensures var c := CompositeImage(diff, expected, actual);
            forall x: nat, y: nat :: x < diff.width && y < diff.height ==> At(c, expected.width + x, y) == At(diff, x, y)
  {
    var c := CompositeImage(diff, expected, actual);
    forall x: nat, y: nat | x < diff.width && y < diff.height
      ensures At(c, expected.width + x, y) == At(diff, x, y)
    {
      assert At(c, expected.width + x, y) == CompositePixel(diff, expected, actual, expected.width + x, y);
    }
  }

  lemma CompositeShowsExpected(diff: Image, expected: Image, actual: Image)
    ensures var h := Min(expected.height, diff.height);
            Crop(CompositeImage(diff, expected, actual), 0, 0, expected.width, h) == Crop(expected, 0, 0, expected.width, h)
  {
    var c := CompositeImage(diff, expected, actual);
    var h := Min(expected.height, diff.height);
    forall x: nat, y: nat | x < expected.width && y < h
      ensures At(c, 0 + x, y) == At(expected, x, y)
    {
      assert At(c, x, y) == CompositePixel(diff, expected, actual, x, y);
    }
    PanelCrop(c, 0, expected, h);
  }

  lemma CompositeShowsActual(diff: Image, expected: Image, actual: Image)
    ensures var h := Min(actual.height, diff.height);
            Crop(CompositeImage(diff, expected, actual), expected.width + diff.width, 0, actual.width, h)
              == Crop(actual, 0, 0, actual.width, h)
  {
    var c := CompositeImage(diff, expected, actual);
    var h := Min(actual.height, diff.height);
    var off := expected.width + diff.width;
    forall x: nat, y: nat | x < actual.width && y < h
      ensures At(c, off + x, y) == At(actual, x, y)
    {
      assert At(c, off + x, y) == CompositePixel(diff, expected, actual, off + x, y);
    }
    PanelCrop(c, off, actual, h);
  }

  /** The composite written for a failing comparison loses nothing: the mask
      is as tall as the taller image, so the snapshot, the mask and the actual
      image can each be cut back out of it exactly. */
  lemma ArtifactCompositeComplete(snapshot: Image, actual: Image, diffColor: Color)
    ensures var d := DiffImage(snapshot, actual, diffColor);
            var c := CompositeImage(d, snapshot, actual);
            && c.width == snapshot.width + d.width + actual.width
            && c.height == Max(snapshot.height, actual.height)
            && Crop(c, 0, 0, snapshot.width, snapshot.height) == snapshot
            && Crop(c, snapshot.width, 0, d.width, d.height) == d
            && Crop(c, snapshot.width + d.width, 0, actual.width, actual.height) == actual
  {
    var d := DiffImage(snapshot, actual, diffColor);
    CompositeShowsDiff(d, snapshot, actual);
    CompositeShowsExpected(d, snapshot, actual);
    CompositeShowsActual(d, snapshot, actual);
    CropWhole(snapshot);
    CropWhole(actual);
  }
}
