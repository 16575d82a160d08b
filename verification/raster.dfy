/** Raster images as immutable grids: the shape NumPy gives a PIL image. */
module Raster {
  import opened Common

  /** One 8-bit sample. */
  type Channel = c: int | 0 <= c <= 255

  /** A pixel of `np.array(image)`: a scalar in a two-dimensional array
      (modes L, P) or a vector of channels in a three-dimensional one
      (RGB, RGBA, ...). */
  datatype Pixel = Gray(v: Channel) | Multi(cs: seq<Channel>)

  /** `height` rows of `width` pixels each; see `Valid`. The width is kept
      explicitly so that a 1x0 image differs from a 0x0 one, as in PIL. */
  datatype Grid<T> = Grid(width: nat, height: nat, rows: seq<seq<T>>) {
    predicate Valid() {
      |rows| == height && forall i | 0 <= i < |rows| :: |rows[i]| == width
    }

    function Dims(): Size {
      Size(width, height)
    }
  }

  type Image<T> = g: Grid<T> | g.Valid() witness Grid(0, 0, [])

  /** A decoded picture as the scripts receive it. */
  type Raster = Image<Pixel>

  /** `np.array(image)` is two-dimensional: every pixel is a scalar, as in
      the one-band modes L and 1, and in P, whose scalars are palette
      indices. A decoded image's pixels all have one
      shape; a raster that mixes the two counts as multi-band. */
  predicate OneBand(im: Raster) {
    forall i, j | 0 <= i < im.height && 0 <= j < im.width :: im.rows[i][j].Gray?
  }

  /** PIL's crop box (left, upper, right, lower); right and lower are exclusive. */
  datatype Box = Box(left: nat, top: nat, right: nat, bottom: nat) {
    predicate Inside(width: nat, height: nat) {
      left <= right <= width && top <= bottom <= height
    }
  }

  /** `image.crop(box)` for a box inside the image. */
  function Crop<T>(im: Image<T>, b: Box): (r: Image<T>)
    requires b.Inside(im.width, im.height)
    ensures r.width == b.right - b.left && r.height == b.bottom - b.top
    ensures forall i, j | 0 <= i < r.height && 0 <= j < r.width ::
              r.rows[i][j] == im.rows[b.top + i][b.left + j]
  {
    Grid(b.right - b.left, b.bottom - b.top,
         seq(b.bottom - b.top, i requires 0 <= i < b.bottom - b.top => im.rows[b.top + i][b.left .. b.right]))
  }

  /** A pixel-wise transform, as NumPy's element-wise operations. */
  function MapImage<A, B>(im: Image<A>, f: A -> B): (r: Image<B>)
    ensures r.width == im.width && r.height == im.height
    ensures forall i, j | 0 <= i < r.height && 0 <= j < r.width :: r.rows[i][j] == f(im.rows[i][j])
  {
    Grid(im.width, im.height,
         seq(im.height, i requires 0 <= i < im.height =>
           seq(im.width, j requires 0 <= j < im.width => f(im.rows[i][j]))))
  }

  /** Cropping to the whole frame returns the frame. */
  lemma CropWhole<T>(im: Image<T>)
    ensures Crop(im, Box(0, 0, im.width, im.height)) == im
  {
    var c := Crop(im, Box(0, 0, im.width, im.height));
    forall i | 0 <= i < im.height
      ensures c.rows[i] == im.rows[i]
    {
      assert im.rows[i][0 .. im.width] == im.rows[i];
    }
  }
}
