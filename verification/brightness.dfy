/** `calculate_brightness`: the histogram formula and what it reduces to in
    exact arithmetic. */
module Brightness {
  import opened Common
  import opened Raster

  /** `len(histogram)` of an 8-bit greyscale image. */
  const Bins := 256

  /** Pixels counted in bins `0 .. k-1`. */
  function Total(H: seq<nat>, k: nat): nat
    requires k <= |H|
  {
    if k == 0 then 0 else Total(H, k - 1) + H[k - 1]
  }

  /** Sum of grey levels over bins `0 .. k-1`: bin `i` contributes `i * H[i]`. */
  function Moment(H: seq<nat>, k: nat): nat
    requires k <= |H|
  {
    if k == 0 then 0 else Moment(H, k - 1) + H[k - 1] * (k - 1)
  }

  /** The value of `brightness` after the loop has visited bins `0 .. k-1`:
      it starts at `scale` and adds `ratio * (index - scale)` per bin. */
  function Accumulate(H: seq<nat>, pixels: real, k: nat): (r: real)
    requires k <= |H| && pixels > 0.0
    ensures k <= Bins ==> r <= Bins as real
    ensures k <= Bins ==> (r == Bins as real <==> Total(H, k) == 0)
  {
    if k == 0 then Bins as real
    else
      var x, d := H[k - 1] as real, (k - 1) as real - Bins as real;
      BinTermSign(x, pixels, d);
      Accumulate(H, pixels, k - 1) + (x / pixels) * d
  }

  /** A bin below `scale` contributes `ratio * (index - scale) <= 0`, and
      zero exactly when the bin is empty. */
  lemma BinTermSign(x: real, p: real, d: real)
    requires x >= 0.0 && p > 0.0
    ensures d < 0.0 ==> (x / p) * d <= 0.0 && ((x / p) * d == 0.0 <==> x == 0.0)
  {
    var q := x / p;
    assert q * p == x;
    if d < 0.0 && q > 0.0 {
      assert q * d < 0.0;
    }
  }

  /** The loop's running value `a`, less `scale`, is the shifted partial
      sum `m - scale * t` divided by the pixel count `p`. */
  predicate ShiftedMean(a: real, m: real, t: real, p: real) {
    (a - Bins as real) * p == m - Bins as real * t
  }

  /** The loop keeps `ShiftedMean` over the bins it has visited. */
  lemma {:induction false} AccumulateIsShiftedMean(H: seq<nat>, pixels: real, k: nat)
    requires k <= |H| && pixels > 0.0
    ensures ShiftedMean(Accumulate(H, pixels, k), Moment(H, k) as real, Total(H, k) as real, pixels)
  {
    if k > 0 {
      AccumulateIsShiftedMean(H, pixels, k - 1);
      AccumulateBin(H, pixels, k);
    }
  }

  /** Adding bin `k - 1` keeps the relation. */
  lemma AccumulateBin(H: seq<nat>, pixels: real, k: nat)
    requires 0 < k <= |H| && pixels > 0.0
    requires ShiftedMean(Accumulate(H, pixels, k - 1), Moment(H, k - 1) as real, Total(H, k - 1) as real, pixels)
    ensures ShiftedMean(Accumulate(H, pixels, k), Moment(H, k) as real, Total(H, k) as real, pixels)
  {
    MomentStep(H, k);
    AccumulateStep(Accumulate(H, pixels, k), Moment(H, k) as real, Total(H, k) as real,
                   Accumulate(H, pixels, k - 1), Moment(H, k - 1) as real, Total(H, k - 1) as real,
                   pixels, H[k - 1] as real, (k - 1) as real);
  }

  /** The last bin's contribution to `Moment`, in reals. */
  lemma MomentStep(H: seq<nat>, k: nat)
    requires 0 < k <= |H|
    ensures Moment(H, k) as real == Moment(H, k - 1) as real + H[k - 1] as real * (k - 1) as real
  {
    assert (H[k - 1] * (k - 1)) as real == H[k - 1] as real * (k - 1) as real;
  }

  /** One loop iteration, in the field of reals: adding `x / p * (i - scale)`
      to the value keeps the relation once `m` gains `x * i` and `t` gains `x`. */
  lemma AccumulateStep(a': real, m': real, t': real, a: real, m: real, t: real, p: real, x: real, i: real)
    requires p > 0.0 && ShiftedMean(a, m, t, p)
    requires a' == a + (x / p) * (i - Bins as real) && m' == m + x * i && t' == t + x
    ensures ShiftedMean(a', m', t', p)
  {
    var B, q := Bins as real, x / p;
    assert q * p == x;
    assert (a + q * (i - B) - B) * p == (a - B) * p + (q * p) * (i - B);
  }

  /** No bin exceeds grey level 255, so the moment is at most 255 per pixel. */
  lemma {:induction false} MomentBound(H: seq<nat>, k: nat)
    requires k <= |H| && k <= Bins
    ensures Moment(H, k) <= 255 * Total(H, k)
  {
    if k > 0 {
      MomentBound(H, k - 1);
      MulMono(k - 1, 255, H[k - 1]);
    }
  }

  /** `calculate_brightness` on a 256-bin histogram `H`. `None` is what the
      source returns when its `try` block raises: an empty image divides by
      `pixels == 0`. Otherwise the value is the mean grey level over 256,
      except that a mean of exactly 255 gives 1. */
  function CalculateBrightness(H: seq<nat>): (r: Option<real>)
    requires |H| == Bins
    ensures r.None? <==> Total(H, Bins) == 0
    ensures r.Some? ==>
              var mean := Moment(H, Bins) as real / Total(H, Bins) as real;
              r.value == if mean == 255.0 then 1.0 else mean / 256.0
    ensures r.Some? ==> 0.0 <= r.value <= 1.0
    ensures r.Some? ==> (r.value == 0.0 <==> Moment(H, Bins) == 0)
    ensures r.Some? ==> (r.value == 1.0 <==> Moment(H, Bins) == 255 * Total(H, Bins))
  {
    var pixels := Total(H, Bins);
    if pixels == 0 then None
    else
      var brightness := Accumulate(H, pixels as real, Bins);
      AccumulateIsShiftedMean(H, pixels as real, Bins);
      MomentBound(H, Bins);
      assert (Bins * pixels) as real == Bins as real * pixels as real;
      LoopValueIsMean(brightness, Moment(H, Bins), pixels);
      Some(if brightness == 255.0 then 1.0 else brightness / Bins as real)
  }

  /** After the whole loop, `brightness` is the mean grey level `m / t`,
      which lies in [0, 255] and hits either end only for a uniform image. */
  lemma LoopValueIsMean(b: real, m: nat, t: nat)
    requires t > 0 && m <= 255 * t
    requires (b - Bins as real) * t as real == m as real - (Bins * t) as real
    ensures b == m as real / t as real
    ensures 0.0 <= b <= 255.0
    ensures b == 0.0 <==> m == 0
    ensures b == 255.0 <==> m == 255 * t
  {
    var T := t as real;
    assert b * T == m as real;
    assert m as real <= 255.0 * T;
  }

  /** Occurrences of grey level `v` among `ps`. */
  function CountOf(ps: seq<Channel>, v: int): nat {
    if |ps| == 0 then 0
    else CountOf(ps[..|ps| - 1], v) + (if ps[|ps| - 1] == v then 1 else 0)
  }

  /** `grayscale.histogram()`: the count of every grey level. */
  function Histogram(ps: seq<Channel>): (H: seq<nat>)
    ensures |H| == Bins && forall v | 0 <= v < Bins :: H[v] == CountOf(ps, v)
  {
    seq(Bins, v requires 0 <= v < Bins => CountOf(ps, v))
  }

  /** Sum of all grey levels. */
  function Sum(ps: seq<Channel>): nat {
    if |ps| == 0 then 0 else Sum(ps[..|ps| - 1]) + ps[|ps| - 1]
  }

  /** Adding one pixel of level `x` adds one to the count and `x` to the moment. */
  lemma {:induction false} AddOne(H: seq<nat>, H': seq<nat>, x: nat, k: nat)
    requires |H| == |H'| && k <= |H| && x < |H|
    requires H'[x] == H[x] + 1 && forall v | 0 <= v < |H| && v != x :: H'[v] == H[v]
    ensures Total(H', k) == Total(H, k) + (if x < k then 1 else 0)
    ensures Moment(H', k) == Moment(H, k) + (if x < k then x else 0)
  {
    if k > 0 {
      AddOne(H, H', x, k - 1);
      if k - 1 == x {
        assert H'[x] * x == H[x] * x + x;
      } else {
        assert H'[k - 1] == H[k - 1];
      }
    }
  }

  /** The histogram counts every pixel once, and its moment is the sum of
      the grey levels. */
  lemma {:induction false} HistogramSums(ps: seq<Channel>)
    ensures Total(Histogram(ps), Bins) == |ps|
    ensures Moment(Histogram(ps), Bins) == Sum(ps)
  {
    if |ps| == 0 {
      ZeroHistogram(Histogram(ps), Bins);
    } else {
      var init := ps[..|ps| - 1];
      HistogramSums(init);
      AddOne(Histogram(init), Histogram(ps), ps[|ps| - 1], Bins);
    }
  }

  lemma {:induction false} ZeroHistogram(H: seq<nat>, k: nat)
    requires k <= |H| && forall v | 0 <= v < |H| :: H[v] == 0
    ensures Total(H, k) == 0 && Moment(H, k) == 0
  {
    if k > 0 {
      ZeroHistogram(H, k - 1);
    }
  }

  lemma {:induction false} SumZero(ps: seq<Channel>)
    ensures Sum(ps) == 0 <==> forall k | 0 <= k < |ps| :: ps[k] == 0
  {
    if |ps| > 0 {
      SumZero(ps[..|ps| - 1]);
    }
  }

  lemma {:induction false} SumFull(ps: seq<Channel>)
    ensures Sum(ps) <= 255 * |ps|
    ensures Sum(ps) == 255 * |ps| <==> forall k | 0 <= k < |ps| :: ps[k] == 255
  {
    if |ps| > 0 {
      SumFull(ps[..|ps| - 1]);
    }
  }

  /** On the grey levels `ps` of an image: no brightness for an empty image;
      0 exactly for an all-black image, 1 exactly for an all-white one, and
      strictly between otherwise. */
  lemma BrightnessOfPixels(ps: seq<Channel>)
    ensures CalculateBrightness(Histogram(ps)).None? <==> |ps| == 0
    ensures |ps| > 0 ==>
              var b := CalculateBrightness(Histogram(ps)).value;
              && (b == 0.0 <==> forall k | 0 <= k < |ps| :: ps[k] == 0)
              && (b == 1.0 <==> forall k | 0 <= k < |ps| :: ps[k] == 255)
              && (0.0 < b < 1.0 <==> exists k, l | 0 <= k < |ps| && 0 <= l < |ps| :: ps[k] != 0 && ps[l] != 255)
  {
    HistogramSums(ps);
    SumZero(ps);
    SumFull(ps);
  }
}
