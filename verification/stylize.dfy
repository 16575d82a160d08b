/** `process_image`: the minimum-resolution gate, the white keying of the
    dithered frame and the computation of the output size. */
module Stylize {
  import opened Common
  import opened Raster

  const MinResolution := 144
  const MaxWidth := 1920

  /** What `process_image` does to the size of the image it is handed. */
  datatype Processed =
    | TooSmall            // below the resolution floor: it returns `None`
    | Unresizable         // the target height is 0: the resize, or the PNG
                          // save of the empty result, raises
    | Resized(size: Size) // the size it resizes to

  /** The outcome of `process_image` on a `w`x`h` image. The resize target
      is computed from `w` and `h`, the size before the interior 80% crop,
      not from the cropped frame. */
  function ProcessedSize(w: nat, h: nat): (r: Processed)
    ensures r.TooSmall? <==> w < MinResolution || h < MinResolution
    ensures r.Unresizable? <==>
              && w >= MinResolution && h >= MinResolution
              && w > MaxWidth && MaxWidth * h < w
    ensures r.Resized? ==> r.size.width == Min(w, MaxWidth) && 0 < r.size.height <= h
    ensures r.Resized? && w <= MaxWidth ==> r.size.height == h
    ensures r.Resized? && w > MaxWidth ==>
              r.size.height * w <= MaxWidth * h < (r.size.height + 1) * w
  {
    if w < MinResolution || h < MinResolution then TooSmall
    else if w > MaxWidth then
      var fh := (MaxWidth * h) / w;
      ScaledDown(h, w, fh);
      if fh == 0 then Unresizable else Resized(Size(MaxWidth, fh))
    else Resized(Size(w, h))
  }

  /** `int((1920 / w) * h)` for `w > 1920` is at most `h`. */
  lemma ScaledDown(h: nat, w: nat, fh: nat)
    requires w > MaxWidth && fh == (MaxWidth * h) / w
    ensures fh * w <= MaxWidth * h < (fh + 1) * w
    ensures fh <= h
  {
    assert MaxWidth * h <= w * h;
  }

  /** An RGBA pixel. */
  datatype Rgba = Rgba(r: Channel, g: Channel, b: Channel, a: Channel)

  const TransparentWhite := Rgba(255, 255, 255, 0)
  const OpaqueBlack := Rgba(0, 0, 0, 255)

  /** The mask `(red > 200) & (green > 200) & (blue > 200)`. */
  function NearWhite(p: Rgba): (r: bool)
    ensures r <==> Min(Min(p.r, p.g), p.b) > 200
  {
    p.r > 200 && p.g > 200 && p.b > 200
  }

  /** `data[white_areas] = [255, 255, 255, 0]` over the whole frame. */
  function KeyWhite(im: Image<Rgba>): (r: Image<Rgba>)
    ensures r.width == im.width && r.height == im.height
    ensures forall i, j | 0 <= i < r.height && 0 <= j < r.width ::
              if NearWhite(im.rows[i][j]) then r.rows[i][j] == TransparentWhite else r.rows[i][j] == im.rows[i][j]
  {
    MapImage(im, (p: Rgba) => if NearWhite(p) then TransparentWhite else p)
  }

  /** Keying twice is keying once. */
  lemma KeyWhiteIdempotent(im: Image<Rgba>)
    ensures KeyWhite(KeyWhite(im)) == KeyWhite(im)
  {
    var once, twice := KeyWhite(im), KeyWhite(KeyWhite(im));
    forall i | 0 <= i < im.height
      ensures twice.rows[i] == once.rows[i]
    {
      assert forall j | 0 <= j < im.width :: twice.rows[i][j] == once.rows[i][j];
    }
  }

  /** A pixel of the 1-bit image: 0 or 255. */
  type Bit = c: Channel | c == 0 || c == 255

  /** `convert('RGB')` then `convert('RGBA')` of a 1-bit image. */
  function BitToRgba(v: Bit): (p: Rgba)
    ensures p.a == 255 && p.r == p.g == p.b == v
    ensures NearWhite(p) <==> v == 255
  {
    Rgba(v, v, v, 255)
  }

  /** The keyed frame of a dithered image holds only opaque black and
      transparent white: a pixel is transparent exactly where the dither
      produced white. */
  lemma KeyedDitherIsTwoTone(d: Image<Bit>)
    ensures var k := KeyWhite(MapImage(d, BitToRgba));
            && k.width == d.width && k.height == d.height
            && forall i, j | 0 <= i < k.height && 0 <= j < k.width ::
                 k.rows[i][j] == (if d.rows[i][j] == 255 then TransparentWhite else OpaqueBlack)
  {
  }
}
