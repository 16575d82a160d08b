/** Aspect-ratio geometry: `crop_to_aspect_ratio` of the processing script
    and `adjust_to_cinema_aspect` of the cinema script. Ratios are exact
    rationals; the scripts compare and multiply IEEE doubles. */
module Aspect {
  import opened Common
  import opened Raster

  /** `width / height > R`, compared exactly (for a positive height). */
  predicate WiderThan(w: nat, h: nat, R: Ratio) {
    w * R.den > h * R.num
  }

  /** `width / height < R`, compared exactly (for a positive height). */
  predicate TallerThan(w: nat, h: nat, R: Ratio) {
    w * R.den < h * R.num
  }

  /** A span of `len` cells starting at `lo` fits in `total` cells with its
      two margins equal, or the far one larger by one. */
  predicate Centred(lo: nat, len: nat, total: nat) {
    lo + len <= total && lo <= total - lo - len <= lo + 1
  }

  /** `n` is the largest count with `n * d <= a`: Python's `int(a / d)` for
      non-negative `a`. */
  predicate IsFloor(n: nat, a: nat, d: Pos) {
    n * d <= a < (n + 1) * d
  }

  /** `int(a / d)` for a non-negative `a`. */
  function FloorDiv(a: nat, d: Pos): (n: nat)
    ensures IsFloor(n, a, d)
  {
    a / d
  }

  /** A floor below the numerator's bound stays below it. */
  lemma FloorBelow(n: nat, a: nat, d: Pos, m: nat)
    requires IsFloor(n, a, d) && a < m * d
    ensures n < m
  {
    if n >= m {
      MulMono(m, n, d);
    }
  }

  /** `int(h * R)`, the width kept by a too-wide image: narrower than `w`. */
  function Narrowed(w: nat, h: nat, R: Ratio): (nw: nat)
    requires WiderThan(w, h, R)
    ensures IsFloor(nw, h * R.num, R.den) && nw < w
  {
    var nw := FloorDiv(h * R.num, R.den);
    FloorBelow(nw, h * R.num, R.den, w);
    nw
  }

  /** `int(w / R)`, the height a too-tall image is brought to: shorter than `h`. */
  function Shortened(w: nat, h: nat, R: Ratio): (nh: nat)
    requires TallerThan(w, h, R)
    ensures IsFloor(nh, w * R.den, R.num) && nh < h
  {
    var nh := FloorDiv(w * R.den, R.num);
    FloorBelow(nh, w * R.den, R.num, h);
    nh
  }

  /** The leading margin of a span of `len` cells centred in `total`:
      `(total - len) // 2`. */
  function Margin(len: nat, total: nat): (m: nat)
    requires len <= total
    ensures Centred(m, len, total)
  {
    (total - len) / 2
  }

  /** The too-wide branch shared by both scripts: keep the full height and
      the centred `int(h * R)` columns. */
  function CentredColumns(w: nat, h: nat, R: Ratio): (b: Box)
    requires WiderThan(w, h, R)
    ensures b.Inside(w, h) && b.top == 0 && b.bottom == h
    ensures IsFloor(b.right - b.left, h * R.num, R.den)
    ensures b.left == Margin(b.right - b.left, w)
  {
    var nw := Narrowed(w, h, R);
    var m := Margin(nw, w);
    Box(m, 0, m + nw, h)
  }

  /** The too-tall branch of `crop_to_aspect_ratio`: keep the full width and
      the centred `int(w / R)` rows. */
  function CentredRows(w: nat, h: nat, R: Ratio): (b: Box)
    requires TallerThan(w, h, R)
    ensures b.Inside(w, h) && b.left == 0 && b.right == w
    ensures IsFloor(b.bottom - b.top, w * R.den, R.num)
    ensures b.top == Margin(b.bottom - b.top, h)
  {
    var nh := Shortened(w, h, R);
    var m := Margin(nh, h);
    Box(0, m, w, m + nh)
  }

  /** The too-wide branch of `crop_to_aspect_ratio`. */
  function CropWide(im: Raster, R: Ratio): (r: Raster)
    requires WiderThan(im.width, im.height, R)
    ensures r.height == im.height && r.width < im.width
    ensures IsFloor(r.width, im.height * R.num, R.den)
    ensures forall i, j | 0 <= i < r.height && 0 <= j < r.width ::
              r.rows[i][j] == im.rows[i][j + Margin(r.width, im.width)]
  {
    Crop(im, CentredColumns(im.width, im.height, R))
  }

  /** The too-tall branch of `crop_to_aspect_ratio`. */
  function CropTall(im: Raster, R: Ratio): (r: Raster)
    requires TallerThan(im.width, im.height, R)
    ensures r.width == im.width && r.height < im.height
    ensures IsFloor(r.height, im.width * R.den, R.num)
    ensures forall i, j | 0 <= i < r.height && 0 <= j < r.width ::
              r.rows[i][j] == im.rows[i + Margin(r.height, im.height)][j]
  {
    Crop(im, CentredRows(im.width, im.height, R))
  }

  /** `crop_to_aspect_ratio(image, R)`: the centred crop to ratio `R`. A
      zero height divides by zero in the source; its one caller passes the
      output of `crop_image`, which is never empty. */
  function CropToAspectRatio(im: Raster, R: Ratio): (r: Raster)
    requires im.height > 0
    ensures r.width <= im.width && r.height <= im.height
    ensures WiderThan(im.width, im.height, R) ==>
              r.height == im.height && IsFloor(r.width, im.height * R.num, R.den)
    ensures TallerThan(im.width, im.height, R) ==>
              r.width == im.width && IsFloor(r.height, im.width * R.den, R.num)
    ensures !WiderThan(im.width, im.height, R) && !TallerThan(im.width, im.height, R) ==> r == im
    ensures forall i, j | 0 <= i < r.height && 0 <= j < r.width ::
              r.rows[i][j] == im.rows[i + Margin(r.height, im.height)][j + Margin(r.width, im.width)]
  {
    if WiderThan(im.width, im.height, R) then CropWide(im, R)
    else if TallerThan(im.width, im.height, R) then CropTall(im, R)
    else im
  }

  /** The cinema script's defaults: 2.39:1, resized to 1920x804. */
  const CinemaRatio := Ratio(239, 100)
  const CinemaSize := Size(1920, 804)

  /** What `adjust_to_cinema_aspect` does before its final resize. */
  datatype Fit =
    | CropTo(box: Box)        // too wide: centred crop
    | PadTo(target: Size)     // too tall: `ImageOps.pad` into this box
    | AsIs                    // already at the ratio

  datatype Adjusted = Adjusted(fit: Fit, size: Size)

  /** The steps `adjust_to_cinema_aspect(image, R, out)` requests of a
      `w`x`h` image, ending in the resize to `out`. A zero height divides
      by zero in the source, and `ImageOps.pad` can raise (`PadFailure`);
      the caller reports both. */
  function AdjustToCinemaAspect(w: nat, h: nat, R: Ratio, out: Size): (r: Adjusted)
    requires h > 0
    ensures r.size == out
    ensures r.fit.CropTo? <==> WiderThan(w, h, R)
    ensures r.fit.PadTo? <==> TallerThan(w, h, R)
    ensures r.fit.CropTo? ==>
              && r.fit.box.Inside(w, h) && r.fit.box.top == 0 && r.fit.box.bottom == h
              && IsFloor(r.fit.box.right - r.fit.box.left, h * R.num, R.den)
              && r.fit.box.left == Margin(r.fit.box.right - r.fit.box.left, w)
    ensures r.fit.PadTo? ==>
              && r.fit.target.width == w && r.fit.target.height < h
              && IsFloor(r.fit.target.height, w * R.den, R.num)
  {
    if WiderThan(w, h, R) then
      Adjusted(CropTo(CentredColumns(w, h, R)), out)
    else if TallerThan(w, h, R) then
      Adjusted(PadTo(Size(w, Shortened(w, h, R))), out)
    else
      Adjusted(AsIs, out)
  }

  /** Python's `round(a / d)` for a non-negative `a`: the nearest integer,
      halves to even: `n` lies within one half of `a / d`, and at exactly
      one half only when `n` is even. */
  function RoundHalfEven(a: nat, d: Pos): (n: nat)
    ensures 2 * (n * d) <= 2 * a + d && 2 * a <= 2 * (n * d) + d
    ensures 2 * a + d == 2 * (n * d) || 2 * a == 2 * (n * d) + d ==> n % 2 == 0
  {
    var q, m := a / d, a % d;
    assert a == q * d + m;
    var n := NearestOf(q, m, d);
    NearestBounds(a, d, q, m, n);
    n
  }

  /** The integer nearest `q + m / d` for `0 <= m < d`, halves to even. */
  function NearestOf(q: nat, m: nat, d: Pos): (n: nat)
    ensures (n == q && 2 * m <= d) || (n == q + 1 && 2 * m >= d)
    ensures 2 * m == d ==> n % 2 == 0
  {
    if 2 * m < d || (2 * m == d && q % 2 == 0) then q else q + 1
  }

  /** Rounding `a / d = q + m / d` down when `m / d <= 1/2` and up when
      `m / d >= 1/2` stays within one half, and a tie needs `m / d == 1/2`. */
  lemma NearestBounds(a: nat, d: Pos, q: nat, m: nat, n: nat)
    requires a == q * d + m && m < d
    requires (n == q && 2 * m <= d) || (n == q + 1 && 2 * m >= d)
    ensures 2 * (n * d) <= 2 * a + d && 2 * a <= 2 * (n * d) + d
    ensures 2 * a + d == 2 * (n * d) || 2 * a == 2 * (n * d) + d ==> 2 * m == d
  {
    if n == q + 1 {
      assert n * d == q * d + d;
    }
  }

  /** `round(a / d)` is 0 exactly when `a / d` is at most one half. */
  lemma RoundsToZero(a: nat, d: Pos)
    ensures RoundHalfEven(a, d) == 0 <==> 2 * a <= d
  {
    var n := RoundHalfEven(a, d);
    if n >= 1 {
      MulMono(1, n, d);
    }
    if n >= 2 {
      MulMono(2, n, d);
    }
  }

  datatype PadFailure =
    | TargetHeightZero    // `size[0] / size[1]` divides by zero
    | ContainedWidthZero  // the inner resize asks for a width of 0
    | SingleBandFill      // `Image.new(mode, size, (0, 0, 0))` for a one-band mode

  /** How `ImageOps.pad(image, (w, nh), color=(0, 0, 0))` fails on a
      `w`x`h` image taller than the target, or `None` when it succeeds. It
      first divides by the target height, then (in `ImageOps.contain`)
      resizes the image to `(round(w / h * nh), nh)`, which needs a positive
      width. When that does not fill the target, it pastes the result onto
      a new canvas filled with the three-element colour, which Pillow
      refuses for a one-band mode (L, 1). */
  function PadFails(w: nat, h: nat, nh: nat, oneBand: bool): (f: Option<PadFailure>)
    requires nh < h
    ensures f == Some(TargetHeightZero) <==> nh == 0
    ensures f == Some(ContainedWidthZero) <==> 0 < nh && 2 * (w * nh) <= h
    ensures f == Some(SingleBandFill) <==>
              0 < nh && 2 * (w * nh) > h && RoundHalfEven(w * nh, h) != w && oneBand
  {
    if nh == 0 then Some(TargetHeightZero)
    else
      RoundsToZero(w * nh, h);
      var nw := RoundHalfEven(w * nh, h);
      if nw == 0 then Some(ContainedWidthZero)
      else if nw != w && oneBand then Some(SingleBandFill)
      else None
  }

  /** A pad target at most half as high as the image is wide is never
      filled by the contained image, so `pad` always builds the canvas: the
      cinema target `(w, int(w / 2.39))` is such a target. */
  lemma ContainNeverFills(w: nat, h: nat, nh: nat)
    ensures 0 < nh < h && 2 * nh <= w ==> RoundHalfEven(w * nh, h) != w
  {
    if 0 < nh < h && 2 * nh <= w && RoundHalfEven(w * nh, h) == w {
      FillsTooWide(w, h, nh);
    }
  }

  /** Rounding `w * nh / h` up to `w` needs `h - nh <= h / (2 * w)`, which
      a target below `h` and at most `w / 2` high rules out. */
  lemma FillsTooWide(w: nat, h: nat, nh: nat)
    requires 0 < nh < h && 2 * nh <= w
    ensures 2 * (w * h) > 2 * (w * nh) + h
  {
    var g := h - nh;
    assert w * h == w * nh + w * g;
    if 2 * (w * g) <= h {
      MulMono(1, g, w);
      assert 2 * w <= h;
      MulMono(2 * h - w, 2 * g, w);
      assert (2 * h - w) * w <= h;
      MulMono(2, w, 2 * h - w);
      assert false;
    }
  }
}
