/** Letterbox removal (`crop_image`): the tight bounding box of the pixels
    that are neither near-white nor near-black, and the crop to it. */
module Letterbox {
  import opened Common
  import opened Raster

  /** `crop_image`'s default `sensitivity`. */
  const DefaultSensitivity := 1

  /** The two branches of the non-mono mask: for a channel vector, some
      channel is below `255 - s` and some (possibly other) channel is above
      `s`; for a scalar, the value lies strictly between `s` and `255 - s`. */
  function NonMono(p: Pixel, s: int): (r: bool)
    ensures r <==> !WhiteWithin(p, s) && !BlackWithin(p, s)
  {
    match p
    case Gray(v) => s < v < 255 - s
    case Multi(cs) =>
      (exists k | 0 <= k < |cs| :: cs[k] < 255 - s) && (exists k | 0 <= k < |cs| :: cs[k] > s)
  }

  /** Every channel of `p` is at least `255 - s`: white up to the sensitivity. */
  predicate WhiteWithin(p: Pixel, s: int) {
    match p
    case Gray(v) => v >= 255 - s
    case Multi(cs) => forall k | 0 <= k < |cs| :: cs[k] >= 255 - s
  }

  /** Every channel of `p` is at most `s`: black up to the sensitivity. */
  predicate BlackWithin(p: Pixel, s: int) {
    match p
    case Gray(v) => v <= s
    case Multi(cs) => forall k | 0 <= k < |cs| :: cs[k] <= s
  }

  /** Row `i` holds a non-mono pixel. */
  predicate RowHit(im: Raster, s: int, i: nat)
    requires i < im.height
  {
    exists j | 0 <= j < im.width :: NonMono(im.rows[i][j], s)
  }

  /** Column `j` holds a non-mono pixel. */
  predicate ColHit(im: Raster, s: int, j: nat)
    requires j < im.width
  {
    exists i | 0 <= i < im.height :: NonMono(im.rows[i][j], s)
  }

  /** `np.argwhere(non_white_black)` is not empty. */
  predicate AnyNonMono(im: Raster, s: int) {
    exists i, j | 0 <= i < im.height && 0 <= j < im.width :: NonMono(im.rows[i][j], s)
  }

  /** Every non-mono pixel lies inside `b`. */
  ghost predicate Covers(im: Raster, s: int, b: Box) {
    forall i, j | 0 <= i < im.height && 0 <= j < im.width && NonMono(im.rows[i][j], s) ::
      b.top <= i < b.bottom && b.left <= j < b.right
  }

  /** Each of the four edges of `b` passes through a non-mono pixel. */
  ghost predicate Touches(im: Raster, s: int, b: Box) {
    && b.Inside(im.width, im.height)
    && b.top < b.bottom && b.left < b.right
    && RowHit(im, s, b.top) && RowHit(im, s, b.bottom - 1)
    && ColHit(im, s, b.left) && ColHit(im, s, b.right - 1)
  }

  /** `b` is the tight bounding box of the non-mono pixels. */
  ghost predicate IsBoundingBox(im: Raster, s: int, b: Box) {
    Covers(im, s, b) && Touches(im, s, b)
  }

  /** Index of the first `true`, as `argwhere(...).min()` along one axis. */
  function FirstTrue(b: seq<bool>): (r: Option<nat>)
    ensures r.None? <==> (forall k | 0 <= k < |b| :: !b[k])
    ensures r.Some? ==> r.value < |b| && b[r.value] && (forall k | 0 <= k < r.value :: !b[k])
  {
    if |b| == 0 then None
    else if b[0] then Some(0)
    else match FirstTrue(b[1..])
      case None => None
      case Some(k) => Some(k + 1)
  }

  /** Index of the last `true`, as `argwhere(...).max()` along one axis. */
  function LastTrue(b: seq<bool>): (r: Option<nat>)
    ensures r.None? <==> (forall k | 0 <= k < |b| :: !b[k])
    ensures r.Some? ==> r.value < |b| && b[r.value] && (forall k | r.value < k < |b| :: !b[k])
  {
    if |b| == 0 then None
    else if b[|b| - 1] then Some(|b| - 1)
    else LastTrue(b[..|b| - 1])
  }

  /** Which rows hold a non-mono pixel. */
  function RowHits(im: Raster, s: int): (r: seq<bool>)
    ensures |r| == im.height && forall i | 0 <= i < im.height :: r[i] == RowHit(im, s, i)
  {
    seq(im.height, i requires 0 <= i < im.height => RowHit(im, s, i))
  }

  /** Which columns hold a non-mono pixel. */
  function ColHits(im: Raster, s: int): (r: seq<bool>)
    ensures |r| == im.width && forall j | 0 <= j < im.width :: r[j] == ColHit(im, s, j)
  {
    seq(im.width, j requires 0 <= j < im.width => ColHit(im, s, j))
  }

  /** The slice bounds `min(axis=0)` .. `max(axis=0) + 1` on both axes, or
      `None` where NumPy's reduction of an empty `argwhere` raises. */
  function BoundingBox(im: Raster, s: int): (r: Option<Box>)
    ensures r.None? <==> !AnyNonMono(im, s)
    ensures r.Some? ==> IsBoundingBox(im, s, r.value)
  {
    var rows := RowHits(im, s);
    var cols := ColHits(im, s);
    match FirstTrue(rows)
    case None =>
      NoRowHitNoNonMono(im, s);
      None
    case Some(top) =>
      RowHitGivesColHit(im, s, top);
      var bottom := LastTrue(rows).value;
      var left := FirstTrue(cols).value;
      var right := LastTrue(cols).value;
      BoundingBoxFromHits(im, s, top, bottom, left, right);
      Some(Box(left, top, right + 1, bottom + 1))
  }

  /** A non-mono pixel marks its row and its column. */
  lemma HitsOf(im: Raster, s: int, i: nat, j: nat)
    requires i < im.height && j < im.width && NonMono(im.rows[i][j], s)
    ensures RowHit(im, s, i) && ColHit(im, s, j)
  {
  }

  lemma NoRowHitHere(im: Raster, s: int, i: nat, j: nat)
    requires i < im.height && j < im.width && !RowHit(im, s, i)
    ensures !NonMono(im.rows[i][j], s)
  {
  }

  lemma RowHitGivesColHit(im: Raster, s: int, i: nat)
    requires i < im.height && RowHit(im, s, i)
    ensures AnyNonMono(im, s)
    ensures LastTrue(RowHits(im, s)).Some?
    ensures FirstTrue(ColHits(im, s)).Some? && LastTrue(ColHits(im, s)).Some?
  {
    var j :| 0 <= j < im.width && NonMono(im.rows[i][j], s);
    HitsOf(im, s, i, j);
    assert RowHits(im, s)[i] && ColHits(im, s)[j];
  }

  lemma BoundingBoxFromHits(im: Raster, s: int, top: nat, bottom: nat, left: nat, right: nat)
    requires FirstTrue(RowHits(im, s)) == Some(top) && LastTrue(RowHits(im, s)) == Some(bottom)
    requires FirstTrue(ColHits(im, s)) == Some(left) && LastTrue(ColHits(im, s)) == Some(right)
    ensures IsBoundingBox(im, s, Box(left, top, right + 1, bottom + 1))
  {
    HitsCover(im, s, top, bottom, left, right);
    var j :| 0 <= j < im.width && NonMono(im.rows[top][j], s);
    assert top <= bottom;
  }

  /** The first and last hits on each axis enclose every non-mono pixel. */
  lemma HitsCover(im: Raster, s: int, top: nat, bottom: nat, left: nat, right: nat)
    requires FirstTrue(RowHits(im, s)) == Some(top) && LastTrue(RowHits(im, s)) == Some(bottom)
    requires FirstTrue(ColHits(im, s)) == Some(left) && LastTrue(ColHits(im, s)) == Some(right)
    ensures Covers(im, s, Box(left, top, right + 1, bottom + 1))
  {
    var rows, cols := RowHits(im, s), ColHits(im, s);
    forall i, j | 0 <= i < im.height && 0 <= j < im.width && NonMono(im.rows[i][j], s)
      ensures top <= i <= bottom && left <= j <= right
    {
      HitsOf(im, s, i, j);
      assert rows[i] && cols[j];
    }
  }

  lemma NoRowHitNoNonMono(im: Raster, s: int)
    requires FirstTrue(RowHits(im, s)).None?
    ensures !AnyNonMono(im, s)
  {
    forall i, j | 0 <= i < im.height && 0 <= j < im.width
      ensures !NonMono(im.rows[i][j], s)
    {
      assert !RowHits(im, s)[i];
      NoRowHitHere(im, s, i, j);
    }
  }

  /** `crop_image(image, sensitivity)`: the crop to the tight bounding box of
      the non-mono pixels, or `None` for the empty selection on which the
      source raises. */
  function CropImage(im: Raster, s: int): (r: Option<Raster>)
    ensures r.None? <==> !AnyNonMono(im, s)
    ensures r.Some? ==> exists b :: IsBoundingBox(im, s, b) && r.value == Crop(im, b)
    ensures r.Some? ==> r.value.width >= 1 && r.value.height >= 1
  {
    match BoundingBox(im, s)
    case None => None
    case Some(b) => Some(Crop(im, b))
  }

  /** There is only one tight bounding box. */
  lemma {:induction false} BoundingBoxUnique(im: Raster, s: int, b1: Box, b2: Box)
    requires IsBoundingBox(im, s, b1) && IsBoundingBox(im, s, b2)
    ensures b1 == b2
  {
    CoverHoldsTouch(im, s, b1, b2);
    CoverHoldsTouch(im, s, b2, b1);
  }

  /** A box that covers every non-mono pixel contains any box whose edges
      pass through non-mono pixels. */
  lemma CoverHoldsTouch(im: Raster, s: int, b: Box, c: Box)
    requires Touches(im, s, b) && Covers(im, s, c)
    ensures c.top <= b.top && b.bottom <= c.bottom && c.left <= b.left && b.right <= c.right
  {
    var j1 :| 0 <= j1 < im.width && NonMono(im.rows[b.top][j1], s);
    var j2 :| 0 <= j2 < im.width && NonMono(im.rows[b.bottom - 1][j2], s);
    var i1 :| 0 <= i1 < im.height && NonMono(im.rows[i1][b.left], s);
    var i2 :| 0 <= i2 < im.height && NonMono(im.rows[i2][b.right - 1], s);
  }

  /** A frame whose every pixel is pure black or pure white, in every
      channel, has no non-mono pixel: `crop_image` fails on it. */
  lemma PureFrameIsEmptySelection(im: Raster, s: int)
    requires s >= 0
    requires forall i, j | 0 <= i < im.height && 0 <= j < im.width :: Pure(im.rows[i][j])
    ensures CropImage(im, s).None?
  {
    forall i, j | 0 <= i < im.height && 0 <= j < im.width
      ensures !NonMono(im.rows[i][j], s)
    {
      assert Pure(im.rows[i][j]);
    }
  }

  /** Every channel 0, or every channel 255. */
  predicate Pure(p: Pixel) {
    match p
    case Gray(v) => v == 0 || v == 255
    case Multi(cs) => (forall k | 0 <= k < |cs| :: cs[k] == 0) || (forall k | 0 <= k < |cs| :: cs[k] == 255)
  }

  /** Cropping to a tight box leaves a frame whose own tight box is the
      whole frame. */
  lemma {:induction false} TightCropIsItsOwnBox(im: Raster, s: int, b: Box)
    requires IsBoundingBox(im, s, b)
    ensures var c := Crop(im, b); IsBoundingBox(c, s, Box(0, 0, c.width, c.height))
  {
    var c := Crop(im, b);
    WholeFrameCovers(c, s);
    TopEdgeSurvives(im, s, b);
    BottomEdgeSurvives(im, s, b);
    LeftEdgeSurvives(im, s, b);
    RightEdgeSurvives(im, s, b);
  }

  lemma WholeFrameCovers(im: Raster, s: int)
    ensures Covers(im, s, Box(0, 0, im.width, im.height))
  {
  }

  lemma TopEdgeSurvives(im: Raster, s: int, b: Box)
    requires IsBoundingBox(im, s, b)
    ensures RowHit(Crop(im, b), s, 0)
  {
    var j :| 0 <= j < im.width && NonMono(im.rows[b.top][j], s);
    CoveredPixelSurvives(im, s, b, b.top, j);
  }

  lemma BottomEdgeSurvives(im: Raster, s: int, b: Box)
    requires IsBoundingBox(im, s, b)
    ensures RowHit(Crop(im, b), s, Crop(im, b).height - 1)
  {
    var c, last := Crop(im, b), b.bottom - 1;
    assert RowHit(im, s, last);
    var j :| 0 <= j < im.width && NonMono(im.rows[last][j], s);
    CoveredPixelSurvives(im, s, b, last, j);
    assert c.height - 1 == last - b.top;
  }

  lemma LeftEdgeSurvives(im: Raster, s: int, b: Box)
    requires IsBoundingBox(im, s, b)
    ensures ColHit(Crop(im, b), s, 0)
  {
    var i :| 0 <= i < im.height && NonMono(im.rows[i][b.left], s);
    CoveredPixelSurvives(im, s, b, i, b.left);
  }

  lemma RightEdgeSurvives(im: Raster, s: int, b: Box)
    requires IsBoundingBox(im, s, b)
    ensures ColHit(Crop(im, b), s, Crop(im, b).width - 1)
  {
    var i :| 0 <= i < im.height && NonMono(im.rows[i][b.right - 1], s);
    CoveredPixelSurvives(im, s, b, i, b.right - 1);
    assert b.right - 1 - b.left == Crop(im, b).width - 1;
  }

  /** A non-mono pixel of the frame is a non-mono pixel of the crop, and
      marks the crop's row and column. */
  lemma CoveredPixelSurvives(im: Raster, s: int, b: Box, i: nat, j: nat)
    requires b.Inside(im.width, im.height) && Covers(im, s, b)
    requires i < im.height && j < im.width && NonMono(im.rows[i][j], s)
    ensures b.top <= i < b.bottom && b.left <= j < b.right
    ensures RowHit(Crop(im, b), s, i - b.top) && ColHit(Crop(im, b), s, j - b.left)
  {
    var c := Crop(im, b);
    var i', j' := i - b.top, j - b.left;
    assert c.rows[i'][j'] == im.rows[i][j];
    assert NonMono(c.rows[i'][j'], s);
  }

  /** `crop_image` crops to the tight bounding box, whichever way it is found. */
  lemma CropImageIsCropToBox(im: Raster, s: int, b: Box)
    requires IsBoundingBox(im, s, b)
    ensures CropImage(im, s) == Some(Crop(im, b))
  {
    var j :| 0 <= j < im.width && NonMono(im.rows[b.top][j], s);
    assert AnyNonMono(im, s);
    BoundingBoxUnique(im, s, BoundingBox(im, s).value, b);
  }

  /** The crop to a tight box is a fixed point of `crop_image`. */
  lemma {:induction false} TightCropIsFixed(im: Raster, s: int, b: Box)
    requires IsBoundingBox(im, s, b)
    ensures CropImage(Crop(im, b), s) == Some(Crop(im, b))
  {
    var c := Crop(im, b);
    TightCropIsItsOwnBox(im, s, b);
    CropImageIsCropToBox(c, s, Box(0, 0, c.width, c.height));
    CropWhole(c);
  }

  /** Cropping an already cropped frame changes nothing. */
  lemma {:induction false} CropImageIdempotent(im: Raster, s: int)
    requires AnyNonMono(im, s)
    ensures CropImage(CropImage(im, s).value, s) == CropImage(im, s)
  {
    var b := BoundingBox(im, s).value;
    CropImageIsCropToBox(im, s, b);
    TightCropIsFixed(im, s, b);
  }
}
