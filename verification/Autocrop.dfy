/** Cropping a scanned page to its content: the pixel scan and the crop rectangle, over exact reals. */
module Autocrop {
  import opened Prelude

  datatype Color = Color(r: int, g: int, b: int)

  /** Image data as `getImageData` returns it: four numbers per pixel, row by row. */
  datatype Image = Image(width: nat, height: nat, data: seq<int>)

  /** Pixel bounds, all inclusive. */
  datatype Bounds = Bounds(top: int, bottom: int, left: int, right: int)

  datatype Rect = Rect(x: int, y: int, width: int, height: int)

  ghost predicate WellFormed(img: Image) {
    |img.data| == 4 * (img.width * img.height)
  }

  lemma PixelInRange(img: Image, x: int, y: int)
    requires WellFormed(img) && 0 <= x < img.width && 0 <= y < img.height
    ensures 0 <= (y * img.width + x) * 4 && (y * img.width + x) * 4 + 3 < |img.data|
  {
    assert y * img.width + x < (y + 1) * img.width;
    assert (y + 1) * img.width <= img.height * img.width;
  }

  function Abs(x: int): nat {
    if x < 0 then -x else x
  }

  /** Opaque enough, and far enough from the background colour. */
  predicate IsForeground(img: Image, bg: Color, tolerance: int, x: int, y: int)
    requires WellFormed(img) && 0 <= x < img.width && 0 <= y < img.height
  {
    PixelInRange(img, x, y);
    var i := (y * img.width + x) * 4;
    && img.data[i + 3] >= 20
    && Abs(img.data[i] - bg.r) + Abs(img.data[i + 1] - bg.g) + Abs(img.data[i + 2] - bg.b) > tolerance
  }

  type Mask = (int, int) -> bool

  /** The foreground test as a function of the position. */
  function MaskOf(img: Image, bg: Color, tolerance: int): Mask
    requires WellFormed(img)
  {
    (x: int, y: int) => 0 <= x < img.width && 0 <= y < img.height && IsForeground(img, bg, tolerance, x, y)
  }

  /** The four channels of a pixel. */
  datatype Pixel = Pixel(r: int, g: int, b: int, a: int)

  function ChannelOf(p: Pixel, k: int): int {
    if k == 0 then p.r else if k == 1 then p.g else if k == 2 then p.b else p.a
  }

  /** The image data of a page given by its pixels: row by row, four channels each. */
  function ImageOf(width: nat, height: nat, page: (int, int) -> Pixel): Image
    requires width > 0
  {
    Image(width, height,
          seq(4 * (width * height), i requires 0 <= i => ChannelOf(page(i / 4 % width, i / 4 / width), i % 4)))
  }

  lemma PositionInData(width: nat, x: int, y: int, k: int)
    requires 0 <= x < width && 0 <= y && 0 <= k < 4
    ensures ((y * width + x) * 4 + k) / 4 == y * width + x && ((y * width + x) * 4 + k) % 4 == k
    ensures (y * width + x) % width == x && (y * width + x) / width == y
  {
    RowAndColumn(width, x, y);
  }

  lemma {:induction false} RowAndColumn(width: nat, x: int, y: int)
    requires 0 <= x < width && 0 <= y
    ensures (y * width + x) % width == x && (y * width + x) / width == y
    decreases y
  {
    if y > 0 {
      RowAndColumn(width, x, y - 1);
      var before := (y - 1) * width + x;
      assert y * width + x == before + width;
      OneRowDown(before, width);
    }
  }

  lemma OneRowDown(n: nat, width: nat)
    requires width > 0
    ensures (n + width) % width == n % width && (n + width) / width == n / width + 1
  {
    var q, r := n / width, n % width;
    assert n == q * width + r;
    assert n + width == (q + 1) * width + r;
    QuotientIs(n + width, width, q + 1, r);
  }

  lemma QuotientIs(n: nat, d: nat, q: nat, r: nat)
    requires n == q * d + r && r < d
    ensures n / d == q && n % d == r
  {
    QuotientAtMost(n / d, n % d, q, r, d);
    QuotientAtMost(q, r, n / d, n % d, d);
  }

  lemma QuotientAtMost(q: nat, r: nat, k: nat, s: nat, d: nat)
    requires q * d + r == k * d + s && r < d && s < d
    ensures q <= k
  {
    assert (q - k) * d == q * d - k * d;
    if q > k {
      AtLeastOneTime(q - k, d);
    }
  }

  lemma AtLeastOneTime(k: nat, d: nat)
    requires k >= 1
    ensures k * d >= d
  {}

  /** The three colour differences, each added or subtracted. */
  function Combined(p: Pixel, bg: Color, i: int, j: int, k: int): int {
    i * (p.r - bg.r) + j * (p.g - bg.g) + k * (p.b - bg.b)
  }

  predicate IsSign(i: int) {
    i == 1 || i == -1
  }

  /**
   * A pixel is foreground exactly when it is not too transparent and its colour differs from the background:
   * some way of adding and subtracting the three differences exceeds the tolerance.
   */
  lemma ForegroundExactly(
    width: nat, height: nat, page: (int, int) -> Pixel, bg: Color, tolerance: int, x: int, y: int)
    requires 0 <= x < width && 0 <= y < height
    ensures var p := page(x, y);
            WellFormed(ImageOf(width, height, page)) &&
            (MaskOf(ImageOf(width, height, page), bg, tolerance)(x, y) <==>
             20 <= p.a &&
             exists i, j, k :: IsSign(i) && IsSign(j) && IsSign(k) && Combined(p, bg, i, j, k) > tolerance)
  {
    var img, p := ImageOf(width, height, page), page(x, y);
    PixelInRange(img, x, y);
    PositionInData(width, x, y, 0);
    PositionInData(width, x, y, 1);
    PositionInData(width, x, y, 2);
    PositionInData(width, x, y, 3);
    DistanceIsLargest(p, bg, tolerance);
  }

  lemma DistanceIsLargest(p: Pixel, bg: Color, t: int)
    ensures Abs(p.r - bg.r) + Abs(p.g - bg.g) + Abs(p.b - bg.b) > t <==>
            exists i, j, k :: IsSign(i) && IsSign(j) && IsSign(k) && Combined(p, bg, i, j, k) > t
  {
    var i, j, k := SignOf(p.r - bg.r), SignOf(p.g - bg.g), SignOf(p.b - bg.b);
    assert Combined(p, bg, i, j, k) == Abs(p.r - bg.r) + Abs(p.g - bg.g) + Abs(p.b - bg.b);
    forall i, j, k | IsSign(i) && IsSign(j) && IsSign(k)
      ensures Combined(p, bg, i, j, k) <= Abs(p.r - bg.r) + Abs(p.g - bg.g) + Abs(p.b - bg.b)
    {}
  }

  function SignOf(x: int): (i: int)
    ensures IsSign(i) && i * x == Abs(x)
  {
    if x < 0 then -1 else 1
  }

  /** The foreground pixels as a set of `(x, y)` positions. */
  ghost function Foreground(mask: Mask, width: nat, height: nat): set<(int, int)> {
    set x, y | 0 <= x < width && 0 <= y < height && mask(x, y) :: (x, y)
  }

  /** `(x, y)` comes before `(cx, cy)` in reading order. */
  predicate Passed(x: int, y: int, cx: int, cy: int) {
    y < cy || (y == cy && x < cx)
  }

  ghost function PassedPart(points: set<(int, int)>, cx: int, cy: int): set<(int, int)> {
    set p | p in points && Passed(p.0, p.1, cx, cy)
  }

  ghost function Columns(points: set<(int, int)>): set<int> {
    set p | p in points :: p.0
  }

  ghost function Rows(points: set<(int, int)>): set<int> {
    set p | p in points :: p.1
  }

  /** `lo` and `hi` are the ends of `xs`. */
  ghost predicate Ends(xs: set<int>, lo: int, hi: int) {
    lo in xs && hi in xs && forall x | x in xs :: lo <= x <= hi
  }

  /** `b` is the tight box around `points`, or has the initial values if there is none. */
  ghost predicate Tight(points: set<(int, int)>, width: nat, height: nat, b: Bounds) {
    if points == {} then b == Bounds(height, -1, width, -1)
    else Ends(Columns(points), b.left, b.right) && Ends(Rows(points), b.top, b.bottom)
  }

  function Extend(b: Bounds, x: int, y: int): Bounds {
    Bounds(if y < b.top then y else b.top, if y > b.bottom then y else b.bottom,
           if x < b.left then x else b.left, if x > b.right then x else b.right)
  }

  lemma ExtendTight(points: set<(int, int)>, width: nat, height: nat, b: Bounds, x: int, y: int)
    requires Tight(points, width, height, b) && 0 <= x < width && 0 <= y < height
    ensures Tight(points + {(x, y)}, width, height, Extend(b, x, y))
  {
    var more := points + {(x, y)};
    assert Columns(more) == Columns(points) + {x} by { assert (x, y).0 == x; }
    assert Rows(more) == Rows(points) + {y} by { assert (x, y).1 == y; }
  }

  lemma PassPixel(mask: Mask, width: nat, height: nat, x: nat, y: nat)
    requires x < width && y < height
    ensures var points := Foreground(mask, width, height);
            PassedPart(points, x + 1, y) ==
            if mask(x, y) then PassedPart(points, x, y) + {(x, y)} else PassedPart(points, x, y)
  {
    assert (x, y) in Foreground(mask, width, height) <==> mask(x, y);
  }

  lemma PassRow(mask: Mask, width: nat, height: nat, y: nat)
    ensures var points := Foreground(mask, width, height);
            PassedPart(points, 0, y + 1) == PassedPart(points, width, y)
  {}

  /** The bounds after the pixels before `(cx, cy)` have been looked at. */
  function ScannedBounds(mask: Mask, width: nat, height: nat, cx: nat, cy: nat): Bounds
    decreases cy, cx
  {
    if cx > 0 then
      var b := ScannedBounds(mask, width, height, cx - 1, cy);
      if mask(cx - 1, cy) then Extend(b, cx - 1, cy) else b
    else if cy > 0 then ScannedBounds(mask, width, height, width, cy - 1)
    else Bounds(height, -1, width, -1)
  }

  /** The scanned bounds are the tight box around the foreground pixels seen so far. */
  lemma {:induction false} ScannedBoundsTight(mask: Mask, width: nat, height: nat, cx: nat, cy: nat)
    requires cx <= width && (cy < height || (cy == height && cx == 0))
    ensures Tight(PassedPart(Foreground(mask, width, height), cx, cy), width, height,
                  ScannedBounds(mask, width, height, cx, cy))
    decreases cy, cx
  {
    if cx > 0 {
      ScannedBoundsTight(mask, width, height, cx - 1, cy);
      PixelStep(mask, width, height, cx - 1, cy, ScannedBounds(mask, width, height, cx - 1, cy));
    } else if cy > 0 {
      ScannedBoundsTight(mask, width, height, width, cy - 1);
      PassRow(mask, width, height, cy - 1);
    } else {
      assert PassedPart(Foreground(mask, width, height), 0, 0) == {};
    }
  }

  lemma PixelStep(mask: Mask, width: nat, height: nat, x: nat, y: nat, b: Bounds)
    requires x < width && y < height && Tight(PassedPart(Foreground(mask, width, height), x, y), width, height, b)
    ensures Tight(PassedPart(Foreground(mask, width, height), x + 1, y), width, height,
                  if mask(x, y) then Extend(b, x, y) else b)
  {
    PassPixel(mask, width, height, x, y);
    if mask(x, y) {
      ExtendTight(PassedPart(Foreground(mask, width, height), x, y), width, height, b, x, y);
    }
  }

  method ScanBounds(img: Image, bg: Color, tolerance: int) returns (b: Bounds)
    requires WellFormed(img)
    ensures b == ScannedBounds(MaskOf(img, bg, tolerance), img.width, img.height, 0, img.height)
    ensures Tight(Foreground(MaskOf(img, bg, tolerance), img.width, img.height), img.width, img.height, b)
  {
    var top, bottom, left, right := img.height, -1, img.width, -1;
    ghost var mask := MaskOf(img, bg, tolerance);
    for y := 0 to img.height
      invariant Bounds(top, bottom, left, right) == ScannedBounds(mask, img.width, img.height, 0, y)
    {
      for x := 0 to img.width
        invariant Bounds(top, bottom, left, right) == ScannedBounds(mask, img.width, img.height, x, y)
      {
        assert mask(x, y) == IsForeground(img, bg, tolerance, x, y);
        if IsForeground(img, bg, tolerance, x, y) {
          if y < top { top := y; }
          if y > bottom { bottom := y; }
          if x < left { left := x; }
          if x > right { right := x; }
        }
      }
    }
    b := Bounds(top, bottom, left, right);
    ScannedBoundsTight(mask, img.width, img.height, 0, img.height);
    assert PassedPart(Foreground(mask, img.width, img.height), 0, img.height) ==
           Foreground(mask, img.width, img.height);
  }

  /// The crop rectangle, one axis at a time

  /** `Math.round` */
  function Round(x: real): int {
    (x + 0.5).Floor
  }

  function Scale(source: nat, analysed: nat): real
    requires analysed > 0
  {
    source as real / analysed as real
  }

  function MinReal(a: real, b: real): real {
    if a < b then a else b
  }

  /** Where the crop starts on an axis whose content spans pixels `lo` to `hi`. */
  function CropStart(lo: int, padding: int, scale: real): int {
    Round((if lo - padding > 0 then lo - padding else 0) as real * scale)
  }

  function CropSize(source: nat, start: int, lo: int, hi: int, padding: int, scale: real): int {
    Round(MinReal((source - start) as real, (hi - lo + 1 + padding * 2) as real * scale))
  }

  /** One axis of the crop: where it starts and how long it is. */
  datatype Span = Span(start: int, size: int)

  function CropSpan(source: nat, analysed: nat, lo: int, hi: int, padding: int): Span
    requires analysed > 0
  {
    var scale := Scale(source, analysed);
    var start := CropStart(lo, padding, scale);
    Span(start, CropSize(source, start, lo, hi, padding, scale))
  }

  function CropRect(sourceWidth: nat, sourceHeight: nat, width: nat, height: nat, b: Bounds, padding: int): Option<Rect>
    requires width > 0 && height > 0
  {
    if b.bottom == -1 || b.right == -1 then None
    else
      var h := CropSpan(sourceWidth, width, b.left, b.right, padding);
      var v := CropSpan(sourceHeight, height, b.top, b.bottom, padding);
      if h.size <= 0 || v.size <= 0 then None else Some(Rect(h.start, v.start, h.size, v.size))
  }

  lemma ProductNonNegative(a: real, b: real)
    requires a >= 0.0 && b >= 0.0
    ensures a * b >= 0.0
  {}

  lemma ProductMonotone(a: real, b: real, s: real)
    requires a <= b && s >= 0.0
    ensures a * s <= b * s
  {}

  lemma AxisInside(source: nat, lo: int, hi: int, padding: int, scale: real)
    requires scale >= 0.0
    ensures var start := CropStart(lo, padding, scale);
            start >= 0 && start + CropSize(source, start, lo, hi, padding, scale) <= source
  {
    ProductNonNegative((if lo - padding > 0 then lo - padding else 0) as real, scale);
  }

  lemma StartCovers(lo: int, padding: int, scale: real)
    requires 0 <= lo && scale >= 0.0 && padding as real * scale >= 1.0
    ensures CropStart(lo, padding, scale) as real <= lo as real * scale
    ensures CropStart(lo, padding, scale) as real >= (lo - padding) as real * scale - 0.5
    ensures CropStart(lo, padding, scale) >= 0
  {
    ProductNonNegative(lo as real, scale);
    assert (lo - padding) as real * scale == lo as real * scale - padding as real * scale;
    if lo - padding <= 0 {
      ProductMonotone((lo - padding) as real, 0.0, scale);
    } else {
      ProductNonNegative((lo - padding) as real, scale);
    }
  }

  /** The crop from `start`, `size` long, contains the scaled image of pixels `lo` to `hi`. */
  ghost predicate AxisCovered(start: int, size: int, lo: int, hi: int, scale: real) {
    && size > 0
    && start as real <= lo as real * scale
    && (hi + 1) as real * scale <= (start + size) as real
  }

  /** The crop of an axis whose content spans pixels `lo` to `hi` contains their scaled image. */
  ghost predicate CropCovers(source: nat, analysed: nat, lo: int, hi: int, padding: int)
    requires analysed > 0
  {
    var span := CropSpan(source, analysed, lo, hi, padding);
    AxisCovered(span.start, span.size, lo, hi, Scale(source, analysed))
  }

  lemma ScaleFits(source: nat, analysed: nat, hi: int)
    requires 0 <= hi < analysed
    ensures (hi + 1) as real * Scale(source, analysed) <= source as real
  {
    ProductMonotone((hi + 1) as real, analysed as real, Scale(source, analysed));
    assert analysed as real * Scale(source, analysed) == source as real;
  }

  lemma ScalePositive(source: nat, analysed: nat, padding: int)
    requires analysed > 0 && padding as real * Scale(source, analysed) >= 1.0
    ensures Scale(source, analysed) > 0.0
  {
    assert Scale(source, analysed) >= 0.0;
    PositiveFactor(padding as real, Scale(source, analysed));
  }

  lemma PositiveFactor(a: real, s: real)
    requires s >= 0.0 && a * s >= 1.0
    ensures s > 0.0
  {
    ZeroFactor(a, s);
  }

  lemma ZeroFactor(a: real, s: real)
    ensures s == 0.0 ==> a * s == 0.0
  {}

  lemma Distribute(a: real, s: real)
    ensures (a + 1.0) * s == a * s + s
  {}

  lemma SizePositive(start: int, size: int, lo: int, hi: int, scale: real)
    requires lo <= hi && scale > 0.0
    requires start as real <= lo as real * scale && (hi + 1) as real * scale <= (start + size) as real
    ensures size > 0
  {
    ProductMonotone((lo + 1) as real, (hi + 1) as real, scale);
    Distribute(lo as real, scale);
    assert (lo + 1) as real == lo as real + 1.0;
    assert start as real + scale <= (start + size) as real;
  }

  /** With a padding of at least one source pixel, the crop covers the scaled image of `lo` to `hi`. */
  lemma AxisCovers(source: nat, analysed: nat, lo: int, hi: int, padding: int)
    requires 0 <= lo <= hi < analysed && padding as real * Scale(source, analysed) >= 1.0
    ensures CropCovers(source, analysed, lo, hi, padding)
  {
    SpanCoversEnds(source, analysed, lo, hi, padding, Scale(source, analysed));
  }

  lemma SpanCoversEnds(source: nat, analysed: nat, lo: int, hi: int, padding: int, scale: real)
    requires 0 <= lo <= hi < analysed && scale == Scale(source, analysed)
    requires padding as real * scale >= 1.0
    ensures var start := CropStart(lo, padding, scale);
            AxisCovered(start, CropSize(source, start, lo, hi, padding, scale), lo, hi, scale)
  {
    ScalePositive(source, analysed, padding);
    ScaleFits(source, analysed, hi);
    StartCovers(lo, padding, scale);
    var start := CropStart(lo, padding, scale);
    EndCovers(source, start, lo, hi, padding, scale);
    SizePositive(start, CropSize(source, start, lo, hi, padding, scale), lo, hi, scale);
  }

  lemma EndCovers(source: nat, start: int, lo: int, hi: int, padding: int, scale: real)
    requires scale >= 0.0 && padding as real * scale >= 1.0
    requires start as real >= (lo - padding) as real * scale - 0.5
    requires (hi + 1) as real * scale <= source as real
    ensures (hi + 1) as real * scale <= (start + CropSize(source, start, lo, hi, padding, scale)) as real
  {
    var h, l, p := (hi + 1) as real * scale, lo as real * scale, padding as real * scale;
    assert (lo - padding) as real * scale == l - p;
    assert (hi - lo + 1 + padding * 2) as real * scale == h - l + 2.0 * p by {
      assert (hi - lo + 1 + padding * 2) as real == (hi + 1) as real - lo as real + 2.0 * padding as real;
    }
    var size := CropSize(source, start, lo, hi, padding, scale);
    if (source - start) as real < h - l + 2.0 * p {
      assert size == source - start;
    } else {
      assert size as real >= h - l + 2.0 * p - 0.5;
    }
  }

  /** Any rectangle returned lies inside the source canvas. */
  lemma RectInsideSource(sourceWidth: nat, sourceHeight: nat, width: nat, height: nat, b: Bounds, padding: int)
    requires width > 0 && height > 0
    ensures var r := CropRect(sourceWidth, sourceHeight, width, height, b, padding);
            r.Some? ==>
              && 0 <= r.value.x && 0 < r.value.width && r.value.x + r.value.width <= sourceWidth
              && 0 <= r.value.y && 0 < r.value.height && r.value.y + r.value.height <= sourceHeight
  {
    AxisInside(sourceWidth, b.left, b.right, padding, Scale(sourceWidth, width));
    AxisInside(sourceHeight, b.top, b.bottom, padding, Scale(sourceHeight, height));
  }

  /// No crop is larger than it has to be

  /** To the nearest integer, halves up. */
  lemma RoundIsNearest(x: real)
    ensures -0.5 < Round(x) as real - x <= 0.5
  {}

  /** How far the padding reaches over the near edge; the crop is as much longer at the far end. */
  function Overhang(lo: int, padding: int): nat {
    if lo < padding then padding - lo else 0
  }

  /**
   * The crop of an axis starts at the padded content or at the edge, and ends with the padded content, or
   * behind it by as much as the padding reaches over the near edge: each to within a pixel.
   */
  lemma CropIsTight(source: nat, analysed: nat, lo: int, hi: int, padding: int, from: real, to: real)
    requires 0 <= lo <= hi < analysed && padding >= 0
    requires from == (lo - padding + Overhang(lo, padding)) as real * Scale(source, analysed)
    requires to == (hi + 1 + padding + Overhang(lo, padding)) as real * Scale(source, analysed)
    ensures var span := CropSpan(source, analysed, lo, hi, padding);
            && from - 0.5 <= span.start as real <= from + 0.5
            && (span.start + span.size) as real <= to + 1.0
            && (to + 1.0 <= source as real ==> to - 1.0 <= (span.start + span.size) as real)
  {
    var scale := Scale(source, analysed);
    var span := CropSpan(source, analysed, lo, hi, padding);
    var long := (hi - lo + 1 + padding * 2) as real * scale;
    StartIsNear(lo, padding, scale, span.start, from);
    SizeIsNear(source, span.start, lo, hi, padding, scale, span.size, long);
    LengthOfPadded(lo, hi, padding, scale, from, to, long);
    TightEnd(source, span.start, from, long, span.size);
  }

  lemma StartIsNear(lo: int, padding: int, scale: real, start: int, from: real)
    requires start == CropStart(lo, padding, scale)
    requires from == (lo - padding + Overhang(lo, padding)) as real * scale
    ensures from - 0.5 <= start as real <= from + 0.5
  {
    assert lo - padding + Overhang(lo, padding) == if lo - padding > 0 then lo - padding else 0;
    RoundIsNearest(from);
  }

  lemma SizeIsNear(source: nat, start: int, lo: int, hi: int, padding: int, scale: real, size: int, long: real)
    requires size == CropSize(source, start, lo, hi, padding, scale)
    requires long == (hi - lo + 1 + padding * 2) as real * scale
    ensures -0.5 < size as real - MinReal((source - start) as real, long) <= 0.5
  {
    RoundIsNearest(MinReal((source - start) as real, long));
  }

  lemma LengthOfPadded(lo: int, hi: int, padding: int, scale: real, from: real, to: real, long: real)
    requires from == (lo - padding + Overhang(lo, padding)) as real * scale
    requires to == (hi + 1 + padding + Overhang(lo, padding)) as real * scale
    requires long == (hi - lo + 1 + padding * 2) as real * scale
    ensures from + long == to
  {
    var a, b := lo - padding + Overhang(lo, padding), hi - lo + 1 + padding * 2;
    SumOfProducts(a as real, b as real, scale);
    assert a + b == hi + 1 + padding + Overhang(lo, padding);
  }

  lemma SumOfProducts(a: real, b: real, s: real)
    ensures (a + b) * s == a * s + b * s
  {}

  lemma TightEnd(source: int, start: int, from: real, length: real, size: int)
    requires from - 0.5 <= start as real <= from + 0.5
    requires -0.5 < size as real - MinReal((source - start) as real, length) <= 0.5
    ensures (start + size) as real <= from + length + 1.0
    ensures from + length + 1.0 <= source as real ==> from + length - 1.0 <= (start + size) as real
  {}

  /// When every crop of an axis covers its content

  /** A pixel of padding, or none on an axis scaled by a whole number. */
  predicate AxisSafe(source: nat, analysed: nat, padding: int)
    requires analysed > 0
  {
    padding >= 1 || (padding == 0 && source % analysed == 0)
  }

  lemma {:induction false} IntProduct(a: nat, b: int)
    ensures (a * b) as real == a as real * b as real
  {
    if a > 0 {
      IntProduct(a - 1, b);
      assert a * b == (a - 1) * b + b;
      Distribute((a - 1) as real, b as real);
    }
  }

  /** Without padding, a crop by a whole number is exact. */
  lemma WholeScaleCovers(source: nat, analysed: nat, lo: int, hi: int)
    requires 0 <= lo <= hi < analysed <= source && source % analysed == 0
    ensures CropCovers(source, analysed, lo, hi, 0)
  {
    var k := source / analysed;
    WholeScale(source, analysed, k);
    ScaleFits(source, analysed, hi);
    WholeStart(lo, k);
    WholeSize(source, lo, hi, k);
    WholeCovered(lo, hi, k);
  }

  lemma WholeStart(lo: nat, k: nat)
    ensures CropStart(lo, 0, k as real) == lo * k
  {
    IntProduct(lo, k);
  }

  lemma WholeSize(source: nat, lo: int, hi: int, k: nat)
    requires 0 <= lo <= hi && (hi + 1) as real * k as real <= source as real
    ensures CropSize(source, lo * k, lo, hi, 0, k as real) == (hi + 1 - lo) * k
  {
    IntProduct(hi + 1, k);
    IntProduct(hi + 1 - lo, k);
    assert (hi + 1 - lo) * k == (hi + 1) * k - lo * k;
    assert hi - lo + 1 + 0 * 2 == hi + 1 - lo;
  }

  lemma WholeCovered(lo: int, hi: int, k: nat)
    requires 0 <= lo <= hi && k > 0
    ensures AxisCovered(lo * k, (hi + 1 - lo) * k, lo, hi, k as real)
  {
    IntProduct(lo, k);
    IntProduct(hi + 1, k);
    assert lo * k + (hi + 1 - lo) * k == (hi + 1) * k;
    SizePositive(lo * k, (hi + 1 - lo) * k, lo, hi, k as real);
  }

  lemma Quotient(a: real, b: real)
    requires a > 0.0
    ensures a * b / a == b
  {}

  lemma WholeScale(source: nat, analysed: nat, k: nat)
    requires 0 < analysed <= source && source == analysed * k
    ensures Scale(source, analysed) == k as real && k > 0
  {
    IntProduct(analysed, k);
    Quotient(analysed as real, k as real);
  }

  lemma ScaleAtLeastOne(source: nat, analysed: nat)
    requires 0 < analysed <= source
    ensures Scale(source, analysed) >= 1.0
  {}

  lemma SafeAxisCovers(source: nat, analysed: nat, lo: int, hi: int, padding: int)
    requires 0 <= lo <= hi < analysed <= source && AxisSafe(source, analysed, padding)
    ensures CropCovers(source, analysed, lo, hi, padding)
  {
    if padding >= 1 {
      ScaleAtLeastOne(source, analysed);
      ProductMonotone(1.0, padding as real, Scale(source, analysed));
      AxisCovers(source, analysed, lo, hi, padding);
    } else {
      WholeScaleCovers(source, analysed, lo, hi);
    }
  }

  /** A pixel half way or more, but not all the way, to the next source pixel; `m` is how far pixel `k` is. */
  lemma RoundedUpPixel(analysed: nat, r: nat, k: nat, m: nat) returns (lo: nat)
    requires 0 < r < analysed && m == k * r && 2 * m < analysed
    ensures lo < analysed && analysed <= 2 * (lo * r) && lo * r < analysed
    decreases analysed - m
  {
    assert (k + 1) * r == m + r;
    Multiples(k, r);
    if 2 * (m + r) < analysed {
      lo := RoundedUpPixel(analysed, r, k + 1, m + r);
    } else {
      lo := k + 1;
    }
  }

  lemma Multiples(k: nat, r: nat)
    requires r > 0
    ensures k > 0 ==> k <= k * r && r <= k * r
  {}

  /** Without padding, rounding up the start of that pixel cuts it. */
  lemma UnevenScaleCuts(source: nat, analysed: nat) returns (lo: nat)
    requires 0 < analysed <= source && source % analysed > 0
    ensures lo < analysed && CropStart(lo, 0, Scale(source, analysed)) as real > lo as real * Scale(source, analysed)
  {
    var q, r := source / analysed, source % analysed;
    lo := RoundedUpPixel(analysed, r, 0, 0);
    var part := PositionOf(source, analysed, q, r, lo);
    RoundedUpStart(lo, Scale(source, analysed), lo * q, part);
  }

  lemma RoundedUpStart(lo: nat, scale: real, n: int, part: real)
    requires lo as real * scale == n as real + part && 0.5 <= part < 1.0
    ensures CropStart(lo, 0, scale) as real > lo as real * scale
  {
    assert CropStart(lo, 0, scale) == Round(lo as real * scale);
    FloorIs(lo as real * scale + 0.5, n + 1);
  }

  lemma FloorIs(x: real, n: int)
    requires n as real <= x < n as real + 1.0
    ensures x.Floor == n
  {}

  lemma CancelFactor(a: real, b: real, w: real)
    requires w > 0.0
    ensures a < b <==> a * w < b * w
  {
    if b <= a {
      ProductMonotone(b, a, w);
    } else {
      assert (b - a) * w > 0.0;
    }
  }

  lemma PartBelowOne(part: real, m: int, w: int)
    requires part * w as real == m as real && 0 <= m < w
    ensures part < 1.0
  {
    CancelFactor(part, 1.0, w as real);
  }

  lemma PartAtLeastHalf(part: real, m: int, w: int)
    requires part * w as real == m as real && 0 < w <= 2 * m
    ensures 0.5 <= part
  {
    CancelFactor(part, 0.5, w as real);
  }

  lemma PartExists(m: int, w: int) returns (part: real)
    requires w > 0
    ensures part * w as real == m as real
  {
    part := m as real / w as real;
  }

  /** Where the scaled image of pixel `lo` starts: a whole number of source pixels and a part of one. */
  lemma PositionOf(source: nat, analysed: nat, q: nat, r: nat, lo: nat) returns (part: real)
    requires source == analysed * q + r && lo * r < analysed <= 2 * (lo * r)
    ensures lo as real * Scale(source, analysed) == (lo * q) as real + part && 0.5 <= part < 1.0
  {
    part := PartExists(lo * r, analysed);
    PartBelowOne(part, lo * r, analysed);
    PartAtLeastHalf(part, lo * r, analysed);
    IntProduct(analysed, q);
    IntProduct(lo, q);
    IntProduct(lo, r);
    SplitScale(source as real, analysed as real, q as real, r as real, lo as real, part);
  }

  lemma SplitScale(source: real, analysed: real, q: real, r: real, lo: real, part: real)
    requires analysed > 0.0 && source == analysed * q + r && part * analysed == lo * r
    ensures lo * (source / analysed) == lo * q + part
  {
    Quotient(analysed, lo * q + part);
    assert analysed * (lo * q + part) == lo * source by {
      assert analysed * (lo * q) == lo * (analysed * q);
    }
    assert lo * source / analysed == lo * (source / analysed);
  }

  /** On an axis that is not safe, some pixel starts before the crop of its content does. */
  lemma UnsafeAxisCuts(source: nat, analysed: nat, padding: int) returns (lo: nat)
    requires 0 < analysed <= source && !AxisSafe(source, analysed, padding)
    ensures lo < analysed
    ensures forall hi :: CutsPixel(CropSpan(source, analysed, lo, hi, padding), lo, Scale(source, analysed))
  {
    if padding == 0 {
      lo := UnevenScaleCuts(source, analysed);
    } else {
      lo := 0;
      ScaleAtLeastOne(source, analysed);
      ProductMonotone(1.0, (-padding) as real, Scale(source, analysed));
    }
  }

  /** The scaled image of pixel `x` starts before `span`. */
  ghost predicate CutsPixel(span: Span, x: int, scale: real) {
    span.start as real > x as real * scale
  }

  lemma CutIsNotCovered(span: Span, lo: int, hi: int, scale: real)
    requires CutsPixel(span, lo, scale)
    ensures !AxisCovered(span.start, span.size, lo, hi, scale)
  {}

  /** Whatever the content, the crop of the axis covers it. */
  ghost predicate EveryCropCovers(source: nat, analysed: nat, padding: int)
    requires analysed > 0
  {
    forall lo, hi | 0 <= lo <= hi < analysed :: CropCovers(source, analysed, lo, hi, padding)
  }

  lemma SafeAxis(source: nat, analysed: nat, padding: int)
    requires 0 < analysed <= source
    ensures AxisSafe(source, analysed, padding) ==> EveryCropCovers(source, analysed, padding)
  {
    if AxisSafe(source, analysed, padding) {
      forall lo, hi | 0 <= lo <= hi < analysed ensures CropCovers(source, analysed, lo, hi, padding) {
        SafeAxisCovers(source, analysed, lo, hi, padding);
      }
    }
  }

  lemma UnsafeAxis(source: nat, analysed: nat, padding: int)
    requires 0 < analysed <= source
    ensures EveryCropCovers(source, analysed, padding) ==> AxisSafe(source, analysed, padding)
  {
    if !AxisSafe(source, analysed, padding) {
      var lo := UnsafeAxisCuts(source, analysed, padding);
      CutIsNotCovered(CropSpan(source, analysed, lo, lo, padding), lo, lo, Scale(source, analysed));
      assert !CropCovers(source, analysed, lo, lo, padding);
    }
  }

  /** Every crop of an axis covers its content exactly when the axis is safe. */
  lemma CropCoversIff(source: nat, analysed: nat, padding: int)
    requires 0 < analysed <= source
    ensures EveryCropCovers(source, analysed, padding) <==> AxisSafe(source, analysed, padding)
  {
    SafeAxis(source, analysed, padding);
    UnsafeAxis(source, analysed, padding);
  }

  lemma SpanCovers(source: nat, analysed: nat, lo: int, hi: int, padding: int) returns (span: Span)
    requires 0 <= lo <= hi < analysed && CropCovers(source, analysed, lo, hi, padding)
    ensures span == CropSpan(source, analysed, lo, hi, padding)
    ensures span.size > 0
    ensures forall x | lo <= x <= hi ::
              PixelInSpan(span, x, Scale(source, analysed))
  {
    span := CropSpan(source, analysed, lo, hi, padding);
    PixelsWithin(span, lo, hi, Scale(source, analysed));
  }

  lemma PixelsWithin(span: Span, lo: int, hi: int, scale: real)
    requires scale >= 0.0 && AxisCovered(span.start, span.size, lo, hi, scale)
    ensures forall x | lo <= x <= hi :: PixelInSpan(span, x, scale)
  {
    forall x | lo <= x <= hi ensures PixelInSpan(span, x, scale) {
      PixelWithin(span.start, span.start + span.size, lo, hi, x, scale);
    }
  }

  /** The scaled image of pixel `x` lies in `span`. */
  ghost predicate PixelInSpan(span: Span, x: int, scale: real) {
    span.start as real <= x as real * scale && (x + 1) as real * scale <= (span.start + span.size) as real
  }

  lemma PixelWithin(from: int, to: int, lo: int, hi: int, x: int, scale: real)
    requires lo <= x <= hi && scale >= 0.0
    requires from as real <= lo as real * scale && (hi + 1) as real * scale <= to as real
    ensures from as real <= x as real * scale && (x + 1) as real * scale <= to as real
  {
    ProductMonotone(lo as real, x as real, scale);
    ProductMonotone((x + 1) as real, (hi + 1) as real, scale);
  }

  /** Every point lies in `rect`, scaled to the source canvas. */
  ghost predicate CoversPoints(rect: Rect, points: set<(int, int)>, scaleX: real, scaleY: real) {
    forall p | p in points ::
      PixelInSpan(Span(rect.x, rect.width), p.0, scaleX) && PixelInSpan(Span(rect.y, rect.height), p.1, scaleY)
  }

  lemma SpansCoverPoints(points: set<(int, int)>, b: Bounds, h: Span, v: Span, scaleX: real, scaleY: real)
    requires forall p | p in points :: b.left <= p.0 <= b.right && b.top <= p.1 <= b.bottom
    requires forall x | b.left <= x <= b.right :: PixelInSpan(h, x, scaleX)
    requires forall y | b.top <= y <= b.bottom :: PixelInSpan(v, y, scaleY)
    ensures CoversPoints(Rect(h.start, v.start, h.size, v.size), points, scaleX, scaleY)
  {
    assert Span(h.start, h.size) == h && Span(v.start, v.size) == v;
  }

  /** A rectangle is returned and covers every foreground pixel. */
  ghost predicate CropKeepsContent(
    sourceWidth: nat, sourceHeight: nat, mask: Mask, width: nat, height: nat, padding: int)
    requires width > 0 && height > 0
  {
    var r := CropRect(sourceWidth, sourceHeight, width, height, ScannedBounds(mask, width, height, 0, height), padding);
    && r.Some?
    && CoversPoints(r.value, Foreground(mask, width, height), Scale(sourceWidth, width), Scale(sourceHeight, height))
  }

  lemma RectKeepsContent(sourceWidth: nat, sourceHeight: nat, mask: Mask, width: nat, height: nat, padding: int)
    requires width > 0 && height > 0 && Foreground(mask, width, height) != {}
    requires EveryCropCovers(sourceWidth, width, padding) && EveryCropCovers(sourceHeight, height, padding)
    ensures CropKeepsContent(sourceWidth, sourceHeight, mask, width, height, padding)
  {
    var points, b := Foreground(mask, width, height), ScannedBounds(mask, width, height, 0, height);
    ScanIsTight(mask, width, height);
    forall p | p in points ensures b.left <= p.0 <= b.right && b.top <= p.1 <= b.bottom {
      assert p.0 in Columns(points) && p.1 in Rows(points);
    }
    var h := SpanCovers(sourceWidth, width, b.left, b.right, padding);
    var v := SpanCovers(sourceHeight, height, b.top, b.bottom, padding);
    SpansCoverPoints(points, b, h, v, Scale(sourceWidth, width), Scale(sourceHeight, height));
  }

  lemma ScanIsTight(mask: Mask, width: nat, height: nat)
    requires width > 0 && height > 0 && Foreground(mask, width, height) != {}
    ensures var b := ScannedBounds(mask, width, height, 0, height);
            && Tight(Foreground(mask, width, height), width, height, b)
            && 0 <= b.left <= b.right < width && 0 <= b.top <= b.bottom < height
  {
    var points := Foreground(mask, width, height);
    ScannedBoundsTight(mask, width, height, 0, height);
    assert PassedPart(points, 0, height) == points;
    BoundsInside(points, width, height, ScannedBounds(mask, width, height, 0, height));
  }

  /**
   * If there is any foreground and the padding is at least one source pixel on each axis, a rectangle is
   * returned and it covers every foreground pixel.
   */
  lemma RectCoversForeground(sourceWidth: nat, sourceHeight: nat, mask: Mask, width: nat, height: nat, padding: int)
    requires width > 0 && height > 0 && Foreground(mask, width, height) != {}
    requires padding as real * Scale(sourceWidth, width) >= 1.0
    requires padding as real * Scale(sourceHeight, height) >= 1.0
    ensures CropKeepsContent(sourceWidth, sourceHeight, mask, width, height, padding)
  {
    forall lo, hi | 0 <= lo <= hi < width ensures CropCovers(sourceWidth, width, lo, hi, padding) {
      AxisCovers(sourceWidth, width, lo, hi, padding);
    }
    forall lo, hi | 0 <= lo <= hi < height ensures CropCovers(sourceHeight, height, lo, hi, padding) {
      AxisCovers(sourceHeight, height, lo, hi, padding);
    }
    RectKeepsContent(sourceWidth, sourceHeight, mask, width, height, padding);
  }

  /**
   * Where the analysed copy is no larger than the source canvas, cropping keeps the content of every page
   * exactly when both axes are safe.
   */
  lemma CropKeepsContentIff(sourceWidth: nat, sourceHeight: nat, width: nat, height: nat, padding: int)
    requires 0 < width <= sourceWidth && 0 < height <= sourceHeight
    ensures (forall mask: Mask | Foreground(mask, width, height) != {} ::
               CropKeepsContent(sourceWidth, sourceHeight, mask, width, height, padding)) <==>
            AxisSafe(sourceWidth, width, padding) && AxisSafe(sourceHeight, height, padding)
  {
    CropCoversIff(sourceWidth, width, padding);
    CropCoversIff(sourceHeight, height, padding);
    if AxisSafe(sourceWidth, width, padding) && AxisSafe(sourceHeight, height, padding) {
      forall mask: Mask | Foreground(mask, width, height) != {}
        ensures CropKeepsContent(sourceWidth, sourceHeight, mask, width, height, padding)
      {
        RectKeepsContent(sourceWidth, sourceHeight, mask, width, height, padding);
      }
    } else if !AxisSafe(sourceWidth, width, padding) {
      var x := UnsafeAxisCuts(sourceWidth, width, padding);
      PixelIsCut(sourceWidth, sourceHeight, width, height, x, 0, padding);
    } else {
      var y := UnsafeAxisCuts(sourceHeight, height, padding);
      PixelIsCut(sourceWidth, sourceHeight, width, height, 0, y, padding);
    }
  }

  function OnePixel(x: int, y: int): Mask {
    (i: int, j: int) => i == x && j == y
  }

  /** A page whose only content is a pixel that starts before its crop. */
  lemma PixelIsCut(sourceWidth: nat, sourceHeight: nat, width: nat, height: nat, x: nat, y: nat, padding: int)
    requires x < width && y < height
    requires CutsPixel(CropSpan(sourceWidth, width, x, x, padding), x, Scale(sourceWidth, width)) ||
             CutsPixel(CropSpan(sourceHeight, height, y, y, padding), y, Scale(sourceHeight, height))
    ensures Foreground(OnePixel(x, y), width, height) != {}
    ensures !CropKeepsContent(sourceWidth, sourceHeight, OnePixel(x, y), width, height, padding)
  {
    var mask := OnePixel(x, y);
    var points, b := Foreground(mask, width, height), ScannedBounds(mask, width, height, 0, height);
    assert (x, y) in points;
    ScanIsTight(mask, width, height);
    assert b == Bounds(y, y, x, x);
    var h, v := CropSpan(sourceWidth, width, x, x, padding), CropSpan(sourceHeight, height, y, y, padding);
    PixelOutside(h, v, points, x, y, Scale(sourceWidth, width), Scale(sourceHeight, height));
    RectOfSpans(sourceWidth, sourceHeight, width, height, b, padding, h, v);
  }

  lemma RectOfSpans(sourceWidth: nat, sourceHeight: nat, width: nat, height: nat, b: Bounds, padding: int,
                    h: Span, v: Span)
    requires width > 0 && height > 0
    requires h == CropSpan(sourceWidth, width, b.left, b.right, padding)
    requires v == CropSpan(sourceHeight, height, b.top, b.bottom, padding)
    ensures var r := CropRect(sourceWidth, sourceHeight, width, height, b, padding);
            r.Some? ==> r.value == Rect(h.start, v.start, h.size, v.size)
  {}

  lemma PixelOutside(h: Span, v: Span, points: set<(int, int)>, x: int, y: int, scaleX: real, scaleY: real)
    requires (x, y) in points && (CutsPixel(h, x, scaleX) || CutsPixel(v, y, scaleY))
    ensures !CoversPoints(Rect(h.start, v.start, h.size, v.size), points, scaleX, scaleY)
  {
    var p := (x, y);
    assert p in points;
    assert Span(h.start, h.size) == h && Span(v.start, v.size) == v;
  }

  lemma BoundsInside(points: set<(int, int)>, width: nat, height: nat, b: Bounds)
    requires points != {} && Tight(points, width, height, b)
    requires forall p | p in points :: 0 <= p.0 < width && 0 <= p.1 < height
    ensures 0 <= b.left <= b.right < width && 0 <= b.top <= b.bottom < height
  {
    var p :| p in points;
    assert p.0 in Columns(points) && p.1 in Rows(points);
    var l :| l in points && l.0 == b.left;
    var r :| r in points && r.0 == b.right;
    var t :| t in points && t.1 == b.top;
    var m :| m in points && m.1 == b.bottom;
  }

  /** The scan and the rectangle together: what is cropped, if anything, for every image. */
  method AutocropRect(sourceWidth: nat, sourceHeight: nat, img: Image, bg: Color, tolerance: int, padding: int)
    returns (r: Option<Rect>)
    requires WellFormed(img) && img.width > 0 && img.height > 0
    ensures r == CropRect(sourceWidth, sourceHeight, img.width, img.height,
                          ScannedBounds(MaskOf(img, bg, tolerance), img.width, img.height, 0, img.height), padding)
    ensures Foreground(MaskOf(img, bg, tolerance), img.width, img.height) == {} ==> r == None
  {
    var bounds := ScanBounds(img, bg, tolerance);
    r := CropRect(sourceWidth, sourceHeight, img.width, img.height, bounds, padding);
  }
}
