# Cell Image Library extraction scripts, modelled in Dafny

The repository holds three Python scripts that pull microscopy images from
the Cell Image Library (CIL) REST service:

- `extractProcess_CILimages.py` turns images into stylised PNGs. For each
  ID it:
  - fetches the metadata document;
  - skips IDs already listed in `processed_images.txt`;
  - resolves the image URL (`CCDB_` IDs by field precedence, `CIL_` IDs by
    the thumbnail template);
  - removes the letterbox (`crop_image`) and crops to a 4:3 ratio
    (`crop_to_aspect_ratio`);
  - gates the image on brightness, contrast and entropy;
  - dithers and keys it (`process_image`);
  - saves it as `{id}_{w}x{h}.png`.

  A driver filters the ID list, shuffles it and loops until 4000 images are
  saved or the IDs run out.
- `extractNoProcess_CILimages.py` downloads the first `num_images` shuffled
  IDs as `{id}.jpg`.
- `extractNoProcess_CILimages_cinemaAsp.py` does the same, but first fits
  each image to 2.39:1 and resizes it to 1920x804 (`{id}_cinema.jpg`).

The model is functional:

- Images are immutable grids (`Raster.Grid`, constrained by `Valid`) of
  pixels: a grey level, or a vector of 8-bit channels.
- Crops are boxes.
- Ratios are exact positive rationals: 4/3, and 239/100 for 2.39.
- Brightness is computed over `real` from a 256-bin histogram.
- Everything from outside the scripts is a field of `Env.World`:
  - the skip list;
  - what each HTTP request returns (a value or a `Fault`);
  - the luminance conversion;
  - contrast and entropy.
- The processing script's per-ID function is `Decision.Decide`, a pure
  function from the world and the ID to an `Outcome`. It returns `True`
  exactly for `Saved`. Every exception the script catches becomes an
  `Error`.
- The batch loops are methods with loop invariants, generic over the
  outcome of one call.
- The download-only scripts are modelled as a plan: the ordered list of
  URLs one call fetches. `NoProcess.Perform` carries out that plan, stops
  at the first failure and records every save.

Modules, one per concern:

- `common.dfy`: `Option`, `Size`, `Ratio`, and Python `startswith` and slicing.
- `raster.dfy`: pixels, grids, boxes, `Crop`, `MapImage`.
- `letterbox.dfy`: `crop_image`.
- `aspect.dfy`: `crop_to_aspect_ratio` and the geometry of `adjust_to_cinema_aspect`.
- `brightness.dfy`: `calculate_brightness` and histograms.
- `stylize.dfy`: the resolution gate, white keying and output size of `process_image`.
- `decimal.dfy`: `int()` and `str()` on decimal strings.
- `dispatch.dfy`: `ccdb_fields` and URL resolution.
- `env.dfy`: faults and the world.
- `decision.dfy`: `download_and_maybe_process_image`.
- `driver.dfy`: the ID filter and the `while` loop.
- `noprocess.dfy`: both download-only scripts.

## Model

| member | source | states |
|---|---|---|
| Letterbox.FirstTrue | extractProcess_CILimages.py:59-60 | `argwhere(...).min()` on one axis: `None` iff no entry is set; otherwise an index whose entry is set, with none set before it |
| Letterbox.LastTrue | extractProcess_CILimages.py:59-60 | `argwhere(...).max()` on one axis: `None` iff no entry is set; otherwise an index whose entry is set, with none set after it |
| Letterbox.NonMono | extractProcess_CILimages.py:49-53 | the mask of `crop_image` keeps a pixel iff it is neither white within the sensitivity (every channel ≥ 255 − s) nor black within it (every channel ≤ s); for a grey value that is s < v < 255 − s |
| Letterbox.BoundingBox | extractProcess_CILimages.py:49-60 | the slice bounds exist iff some pixel is non-mono, and then form the tight bounding box: every non-mono pixel lies inside, and each of the four edges passes through one |
| Letterbox.CropImage | extractProcess_CILimages.py:45-63 | `crop_image` fails (empty `argwhere`) iff no pixel is non-mono; otherwise it returns the crop to a tight bounding box, at least 1x1 |
| Letterbox.BoundingBoxUnique | extractProcess_CILimages.py:56-60 | any two tight bounding boxes are equal, so the crop does not depend on how the box is found |
| Letterbox.PureFrameIsEmptySelection | extractProcess_CILimages.py:49-56 | for a non-negative sensitivity, a frame whose pixels are all pure black or pure white leaves `crop_image` with an empty selection |
| Letterbox.TightCropIsItsOwnBox | extractProcess_CILimages.py:59-60 | after cropping to the tight box, the tight box of the result is the whole result |
| Letterbox.CropImageIsCropToBox | extractProcess_CILimages.py:45-63 | for any tight bounding box `b`, `crop_image` returns exactly the crop to `b` |
| Letterbox.TightCropIsFixed | extractProcess_CILimages.py:45-63 | `crop_image` leaves a crop to the tight box unchanged |
| Letterbox.CropImageIdempotent | extractProcess_CILimages.py:45-63 | applying `crop_image` twice gives the same result as applying it once |
| Raster.Crop | extractProcess_CILimages.py:199 | `image.crop(box)` has the box's size, and pixel (i, j) of the crop is pixel (top+i, left+j) of the image |
| Raster.CropWhole | extractProcess_CILimages.py:199 | cropping to the box of the whole frame gives the frame back |
| Aspect.FloorDiv | extractProcess_CILimages.py:196 | `int(a / d)` is the largest n with n·d ≤ a |
| Aspect.Narrowed | extractProcess_CILimages.py:194-196 | in the too-wide case, `int(h * R)` is the floor of h·R and is strictly less than w |
| Aspect.Shortened | extractProcess_CILimages.py:200-202 | in the too-tall case, `int(w / R)` is the floor of w/R and is strictly less than h |
| Aspect.Margin | extractProcess_CILimages.py:197 | the offset `(total - len) // 2` centres the span: the far margin equals the near one or exceeds it by 1 |
| Aspect.CentredColumns | extractProcess_CILimages.py:194-199 | the too-wide box keeps the full height; its width is the floor of h·R and it starts at the centring offset |
| Aspect.CentredRows | extractProcess_CILimages.py:200-205 | the too-tall box keeps the full width; its height is the floor of w/R and it starts at the centring offset |
| Aspect.CropWide | extractProcess_CILimages.py:194-199 | a too-wide image keeps its height and becomes strictly narrower, at width floor(h·R); pixels shift left by the centring offset |
| Aspect.CropTall | extractProcess_CILimages.py:200-205 | a too-tall image keeps its width and becomes strictly shorter, at height floor(w/R); pixels shift up by the centring offset |
| Aspect.CropToAspectRatio | extractProcess_CILimages.py:190-210 | the output is never larger than the input; it has floor width or height per branch; it is the input itself at exactly ratio R; every output pixel is the input pixel shifted by the two centring offsets |
| Aspect.AdjustToCinemaAspect | extractNoProcess_CILimages_cinemaAsp.py:25-44 | the steps requested: a final resize to `output_size` in every branch; a crop iff wider than the ratio, a pad iff taller, neither at the ratio; the crop is centred at width floor(h·2.39) and full height; the pad target is (w, floor(w/2.39)), shorter than the image. Whether the pad succeeds is `Aspect.PadFails` |
| Aspect.RoundHalfEven | extractNoProcess_CILimages_cinemaAsp.py:39 | Python's `round(a / d)` inside `ImageOps.pad`: an integer within one half of a/d, and even at a tie |
| Aspect.RoundsToZero | extractNoProcess_CILimages_cinemaAsp.py:39 | `round(a / d)` is 0 exactly when a/d ≤ 1/2 |
| Aspect.PadFails | extractNoProcess_CILimages_cinemaAsp.py:40 | `ImageOps.pad(image, (w, nh), color=(0, 0, 0))` on a w×h image taller than the target divides by zero iff nh = 0; its inner resize asks for width 0 iff nh > 0 and 2·w·nh ≤ h; otherwise, when the contained image does not fill the target, the canvas refuses the three-element colour iff the image is one-band; in every other case it succeeds |
| Aspect.ContainNeverFills | extractNoProcess_CILimages_cinemaAsp.py:38-40 | a pad target below the image and at most half as high as the image is wide, as (w, int(w/2.39)) always is, is never filled by the contained image, so `pad` always builds a canvas |
| Brightness.AccumulateIsShiftedMean | extractProcess_CILimages.py:71-75 | after the loop has visited k bins, `(brightness - 256) * pixels` equals Σ i·H[i] − 256·Σ H[i] over those bins |
| Brightness.Accumulate | extractProcess_CILimages.py:70-75 | the loop as written, `brightness` starting at 256 and adding `histogram[i] / pixels * (i - 256)`, never rises above 256, and stays at 256 iff none of the visited bins holds a pixel |
| Brightness.AccumulateBin | extractProcess_CILimages.py:73-75 | one iteration of the loop keeps that relation |
| Brightness.MomentBound | extractProcess_CILimages.py:73 | over a 256-bin histogram, the sum of grey levels is at most 255 per pixel |
| Brightness.LoopValueIsMean | extractProcess_CILimages.py:71-77 | the loop's final value is the mean grey level; it lies in [0, 255] and reaches 0 or 255 only for a uniform image |
| Brightness.CalculateBrightness | extractProcess_CILimages.py:66-81 | `None` (division by zero caught) iff the histogram is empty; otherwise mean/256, or 1 when the mean is exactly 255; always in [0, 1]; 0 iff no pixel is above black; 1 iff every pixel is white |
| Brightness.Histogram | extractProcess_CILimages.py:69 | `histogram()` has 256 bins, and bin v counts the pixels of level v |
| Brightness.AddOne | extractProcess_CILimages.py:69-70 | counting one more pixel of level x adds 1 to the pixel total and x to the sum of levels |
| Brightness.HistogramSums | extractProcess_CILimages.py:69-70 | the histogram counts every pixel once (`sum(histogram)` is the pixel count), and its moment is the sum of the grey levels |
| Brightness.SumZero | extractProcess_CILimages.py:68-77 | the grey levels sum to 0 iff every pixel is black |
| Brightness.SumFull | extractProcess_CILimages.py:68-77 | the grey levels sum to at most 255 per pixel, with equality iff every pixel is white |
| Brightness.BrightnessOfPixels | extractProcess_CILimages.py:66-81 | on an image's grey levels: `None` iff the image is empty; 0 iff all black; 1 iff all white; strictly between 0 and 1 iff some pixel is not black and some is not white |
| Stylize.ProcessedSize | extractProcess_CILimages.py:119-173 | `process_image` returns `None` iff width < 144 or height < 144; otherwise it raises iff w > 1920 and 1920·h < w (target height 0); otherwise it resizes to width min(w, 1920), computed from the pre-crop size, and height h when w ≤ 1920, else floor(1920·h/w), which is between 1 and h |
| Stylize.ScaledDown | extractProcess_CILimages.py:164-167 | for w > 1920, `int((1920 / w) * h)` is the floor of 1920·h/w and does not exceed h |
| Stylize.KeyWhite | extractProcess_CILimages.py:144-149 | keying keeps the frame size; a pixel with R, G and B all above 200 becomes (255, 255, 255, 0), and every other pixel is unchanged |
| Stylize.NearWhite | extractProcess_CILimages.py:147 | the mask `(red > 200) & (green > 200) & (blue > 200)` holds iff the darkest colour channel exceeds 200; alpha plays no part |
| Stylize.KeyWhiteIdempotent | extractProcess_CILimages.py:144-149 | keying an already keyed frame changes nothing |
| Stylize.KeyedDitherIsTwoTone | extractProcess_CILimages.py:132-149 | after dithering and RGB/RGBA conversion, the keyed frame holds only transparent white (where the dither gave 255) and opaque black |
| Stylize.BitToRgba | extractProcess_CILimages.py:139-142 | `convert('RGB')` then `convert('RGBA')` of a dithered pixel is opaque, grey at the bit's level, and near-white iff the bit is 255 |
| Decimal.ParseInt | extractProcess_CILimages.py:337 | `int(s)` succeeds iff `s` is a non-empty run of digits, or a sign followed by a non-empty run of digits; the value is the digits' value, negated after `-` |
| Decimal.Show | extractProcess_CILimages.py:296 | `str(n)` is a non-empty string of digits, a single digit exactly when n < 10, and without a leading zero when n > 0 |
| Decimal.ShowDigitsValue | extractProcess_CILimages.py:296 | reading the digits of `str(n)` back gives n |
| Decimal.ParseShow | extractProcess_CILimages.py:337 | `int(str(n)) == n` and `int("-" + str(n)) == -n` |
| Decimal.ShowInjective | extractProcess_CILimages.py:296-304 | `str` gives different text for different numbers |
| Dispatch.FirstTruthy | extractProcess_CILimages.py:229-235 | after the loop with `break`, `image_url` is the value of the first field with a non-empty value; if there is none, it is the last field's lookup, which is not truthy |
| Dispatch.ResolveUrl | extractProcess_CILimages.py:228-242 | `CCDB_` IDs take the first non-empty field in `ccdb_fields` order (else the last lookup); `CIL_` IDs take the thumbnail URL of `id[4:]`; any other ID has no URL |
| Dispatch.Lookup | extractProcess_CILimages.py:233 | `data.get(field)`: `None` iff the field is missing, otherwise its value |
| Dispatch.ThumbnailUrl | extractProcess_CILimages.py:242 | the thumbnail URL is the fixed prefix, the ID number, `/`, the number again and `_thumbnailx512.jpg`; the number can be read back from either position |
| Dispatch.PrefixesDisjoint | extractProcess_CILimages.py:229-237 | no ID starts with both `CCDB_` and `CIL_`, so the `elif` order does not matter |
| Dispatch.TruthyValues | extractNoProcess_CILimages.py:35-38 | the URLs the loop without `break` fetches: one per non-empty field (`CountTruthy`), none of them empty, none at all iff no field is non-empty |
| Dispatch.TruthyValuesExact | extractNoProcess_CILimages.py:35-48 | every non-empty field's value is fetched, in `ccdb_fields` order: field k's value comes right after the values of the non-empty fields before it; nothing else is fetched |
| Dispatch.TruthyValuesFirst | extractNoProcess_CILimages.py:35-38 | the loop without `break` fetches first the URL at which the processing script's loop with `break` stops |
| Dispatch.TruthyValuesLast | extractNoProcess_CILimages.py:35-48 | the loop without `break` fetches last the value of the last non-empty field |
| Decision.Gate | extractProcess_CILimages.py:284-290 | the threshold test passes iff all three metrics are present and 0 < brightness < 1, contrast > 0 and entropy < 10; a missing brightness always raises `TypeError` |
| Decision.Frame | extractProcess_CILimages.py:214-260 | an image reaches the `process` switch iff: the document was fetched; the ID is not on the skip list; a URL resolved; the image was fetched; and it holds a non-mono pixel. The image that reaches it is the letterbox crop, cropped to the ratio when one is given |
| Decision.Decide | extractProcess_CILimages.py:214-323 | a failed document fetch is an error; a listed ID is skipped; an ID with neither prefix is skipped; `process=False` saves exactly the framed images at their own size; `process=True` saves exactly those that pass the gate and that `process_image` resizes, at that size; the file name is `{id}_{w}x{h}.png` |
| Decision.SavedName | extractProcess_CILimages.py:296-304 | the processed file name starts with `{id}_` and ends in `.png`, with the two decimal sides and the `x` between them |
| Decision.SavedNameDeterminesSize | extractProcess_CILimages.py:296-304 | two saves of one ID at different sizes never share a file name: `{id}_{w}x{h}.png` gives back w and h |
| Decision.FetchImage | extractProcess_CILimages.py:248 | `requests.get("")` is refused (`InvalidUrl`) before any request; any other URL yields what the world holds for it |
| Decision.EmptyLastFieldIsInvalidUrl | extractProcess_CILimages.py:228-248 | a `CCDB_` document with no non-empty field, whose last field is an empty string, ends the call in `InvalidUrl`, whatever `process` and the ratio |
| Decision.SavedPassedChecks | extractProcess_CILimages.py:264-302 | anything saved with processing was: not on the skip list; neither all black nor all white; of positive contrast and entropy below 10; at least 144x144; and is at most 1920 wide |
| Decision.SkipListBeforeFetch | extractProcess_CILimages.py:217-226 | for a listed ID, the outcome depends only on the document fetch: the image source and the metrics do not matter |
| Driver.FilterIds | extractProcess_CILimages.py:337 | the filter raises iff some ID's `id[4:]` is not an integer; otherwise it keeps exactly the IDs whose number is at most 50000, each as often as it occurs in the listing |
| Driver.KeptOf | extractProcess_CILimages.py:337 | the comprehension, once every ID parses: each kept ID as often as it occurs in the listing, and nothing else |
| Driver.Kept | extractProcess_CILimages.py:337 | an ID passes the filter condition `int(id[4:]) <= 50000` only if `id[4:]` parses, which needs more than four characters |
| Driver.KeptNumber | extractProcess_CILimages.py:337 | an ID whose `id[4:]` is the decimal n passes iff n ≤ 50000; one whose `id[4:]` is `-` followed by a decimal always passes |
| Driver.CcdbIdAbortsFilter | extractProcess_CILimages.py:337 | a single `CCDB_` ID makes the filter raise, because its `id[4:]` starts with `_` |
| Driver.SuccessesOfPrefix | extractProcess_CILimages.py:356-361 | a prefix of the ID list has no more successes than the whole list |
| Driver.RunBatch | extractProcess_CILimages.py:356-361 | at loop exit, downloaded ≤ num, index ≤ len(ids), downloaded ≤ index; downloaded counts the successes among `ids[:index]` and equals min(num, successes among all IDs); the loop stops early only right after a success |
| Driver.RunScript | extractProcess_CILimages.py:329-361 | the script stops at the filter iff an ID does not parse; otherwise it saves min(4000, successes) images from the shuffled, filtered list |
| NoProcess.SavedSize | extractNoProcess_CILimages_cinemaAsp.py:25-44 | the plain script saves at the image's own size. The cinema script saves at 1920x804 iff the fit gets to its final resize (`CinemaFits`); otherwise it fails: a zero height, or a pad target of height 0, divides by zero; a pad whose inner resize has width 0 raises; and every one-band (L, 1) image taller than 2.39:1 fails on the pad colour |
| NoProcess.NarrowFailsCinema | extractNoProcess_CILimages_cinemaAsp.py:37-40 | an image one or two pixels wide gets a pad target of height 0, so the cinema fit divides by zero |
| NoProcess.VeryTallFailsCinema | extractNoProcess_CILimages_cinemaAsp.py:37-40 | an example showing that the width-0 failure happens: a 3x7 image would shrink to width 0 inside its 3x1 pad target, so the cinema fit raises (`Aspect.PadFails` states the condition for every size) |
| NoProcess.Perform | extractNoProcess_CILimages.py:35-48 | the URLs are fetched and saved in order under one name; the call ends at the first failure, having saved the URLs before it; it completes iff every URL was saved |
| NoProcess.Plan | extractNoProcess_CILimages.py:33-65 | the URLs one call fetches: for `CCDB_` every non-empty field's value in field order; for `CIL_` the one thumbnail of `id[4:]`; otherwise none |
| NoProcess.DownloadImage | extractNoProcess_CILimages.py:25-75 | a failed document fetch saves nothing; every save goes to `{id}.jpg` (`{id}_cinema.jpg` in the cinema script); every cinema save is 1920x804 |
| NoProcess.OutputName | extractNoProcess_CILimages.py:47-64 | the saved name is the ID followed by `.jpg` (`_cinema.jpg` in the cinema script, lines 72 and 93) |
| NoProcess.OutputNameInjective | extractNoProcess_CILimages.py:47-64 | within one script, two different IDs never write the same file |
| NoProcess.PlanStartsAtResolvedUrl | extractNoProcess_CILimages.py:33-54 | the first URL fetched is the processing script's resolved URL, and nothing is fetched iff that URL is unusable |
| NoProcess.NoUrlNoSave | extractNoProcess_CILimages.py:33-49 | with no usable URL (no prefix, or no non-empty CCDB field), the call fetches and saves nothing and ends normally |
| NoProcess.CilSavesThumbnail | extractNoProcess_CILimages.py:49-65 | a `CIL_` ID fetches the one thumbnail URL of `id[4:]` and, when the image can be saved, saves it once under the ID's name |
| NoProcess.LastFieldWins | extractNoProcess_CILimages.py:33-48 | when every fetch (and, in the cinema script, every fit) succeeds, the file a `CCDB_` ID leaves on disk was last written from the last non-empty field's URL, in both scripts |
| NoProcess.LastTruthyFieldWins | extractNoProcess_CILimages_cinemaAsp.py:55-73 | the same for any ordered list of fields: the last save is the last non-empty field's image, at the size that script saves it |
| NoProcess.PerformCompletes | extractNoProcess_CILimages.py:35-48 | with no failed fetch or fit, the call saves every URL and ends normally, and its last save is the last URL's image |
| NoProcess.DownloadEach | extractNoProcess_CILimages.py:94-96 | the `for` loop produces one report per ID, in list order |
| NoProcess.RunMain | extractNoProcess_CILimages.py:77-96 | `download_image` runs exactly min(num_images, len(ids)) times (none when num_images ≤ 0), on the shuffled IDs in order, whatever each call's outcome |

## Left out

- HTTP is modelled only by its results:
  - sessions, authentication, timeouts and the retry adapter;
  - JSON decoding;
  - the public-ID listing request.

  Each fetch is a field of `Env.World` that yields a value or a `Fault`. Failures and exceptions are kept, the transport is not.
- `random.seed(time.time())` and `random.shuffle` are a parameter of the drivers (`shuffle`). They are nondeterministic.
- Start and end timing, and every `print`, are left out. They are cosmetic.
- File I/O is not modelled:
  - reading `processed_images.txt` (the skip list is an input);
  - `os.makedirs`;
  - the PNG and JPEG encoders (saves are recorded as actions).
- Pillow internals are left out because they are foreign code:
  - `Image.open` decoding;
  - `convert('L')` weighting (the grey levels are an input);
  - the Floyd-Steinberg dither of `convert('1')` (an opaque map to 0/255 pixels; only its keying is modelled);
  - NEAREST and LANCZOS resampling;
  - the pixel content of `ImageOps.pad`.
- The interior 80% crop of `process_image` (float crop box, `extractProcess_CILimages.py:151-157`) is left out. Pillow rounds its float box internally, and the output size ignores it.
- `Env.World.luminance` (the grey levels of `convert('L')`) is an input whose length is not tied to the image's width times height. No stated property depends on it, but a 0-pixel image can be given a brightness.
- `calculate_contrast` and `calculate_entropy` are inputs of the world. They are floating-point numerics over a standard deviation and a `log2`.
- `argparse` handling is left out. It is plumbing.
- Stylize.ProcessedSize: computes `int((1920 / w) * h)` in exact arithmetic. The source uses IEEE doubles, so at an exact integer boundary the double may round one below.
- Aspect.CropToAspectRatio: compares `width / height` with the ratio, and computes `int(h * R)` and `int(w / R)`, exactly. The source uses doubles (4/3 is not representable), so the branch taken or the floor can differ at exact boundaries.
- Aspect.AdjustToCinemaAspect: uses exactly 239/100 where the source uses the double nearest 2.39, with the same boundary caveat.
- Decimal.ParseInt: accepts an optional sign and ASCII digits only. Python's `int()` also accepts surrounding whitespace, underscores between digits and non-ASCII digits. None of these occur in CIL IDs.
- Dispatch.Lookup treats metadata values as strings only. A non-string JSON value under a CCDB field (a number, a list) is not modelled.
- NoProcess.Perform treats every decoded image as saveable as JPEG. Pillow refuses some modes (RGBA, P), and the script's generic handler would catch that.
- NoProcess.SavedSize: tells a one-band image by its pixels being scalars, so the 32-bit single-band modes (I, F) count as one-band too; a JPEG decodes to neither. A palette (P) image also counts as one-band and is reported as failing at the pad, where Pillow turns `(0, 0, 0)` into a palette index and the source fails only at the JPEG save; either way the handler catches it and nothing is written. It follows `ImageOps.pad` as Pillow 8.3 and later write it, rounding the contained width with `round`. Older Pillow truncated with `int`, so there the width-0 case covers slightly more images. The product `w / h * nh` is computed exactly where Pillow uses doubles.
- Driver.FilterIds: states which IDs are kept and how often, but not their order. The shuffle that follows discards the order.
- Decision.Decide with `process=False` saves the framed image at its own size even when the aspect crop leaves it 0 pixels high. Pillow's behaviour on such an image is not modelled, and the driver always processes.

## Notes on the source

- The ID filter `int(id[4:]) <= 50000` runs at module level with no handler. Any `CCDB_` ID in the listing makes `id[4:]` start with `_`, so `int` raises and the whole script stops before its loop (`Driver.CcdbIdAbortsFilter`). The comment on that line states the assumption that every ID starts with `CIL_`. A `CCDB_` ID can only come from the listing, and any such ID stops the filter, so the script's own driver never reaches the CCDB branch of `download_and_maybe_process_image`.
- In the processing script, a `CCDB_` document without any non-empty field leaves `image_url` at the last field's lookup. When that is an empty string rather than missing, the image request is made with `""` and fails. The generic handler catches it (`Env.Fault.InvalidUrl`).
- A metric of `None` reaching the threshold comparison raises `TypeError`, which the generic handler turns into `False` (`Decision.Gate`).
