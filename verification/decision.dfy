/** `download_and_maybe_process_image`: what happens to one ID in the
    processing script, as a function of the run's inputs. */
module Decision {
  import opened Common
  import opened Raster
  import opened Letterbox
  import opened Aspect
  import opened Brightness
  import opened Stylize
  import opened Dispatch
  import opened Decimal
  import opened Env

  /** The thresholds in force. */
  const BrightnessMin := 0.0
  const BrightnessMax := 1.0
  const ContrastMin := 0.0
  const EntropyMax := 10.0

  datatype Verdict = Pass | Reject | TypeError

  /** `brightness < max and brightness > min and contrast > min and entropy
      < max`, evaluated left to right with short-circuit: a `None` reached
      by the evaluation raises `TypeError`. */
  function Gate(b: Option<real>, c: Option<real>, e: Option<real>): (v: Verdict)
    ensures v == Pass <==>
              && b.Some? && c.Some? && e.Some?
              && BrightnessMin < b.value < BrightnessMax
              && c.value > ContrastMin && e.value < EntropyMax
    ensures v == TypeError ==> b.None? || c.None? || e.None?
    ensures b.None? ==> v == TypeError
  {
    if b.None? then TypeError
    else if !(b.value < BrightnessMax && b.value > BrightnessMin) then Reject
    else if c.None? then TypeError
    else if !(c.value > ContrastMin) then Reject
    else if e.None? then TypeError
    else if !(e.value < EntropyMax) then Reject
    else Pass
  }

  /** `calculate_brightness` of the framed image. */
  function BrightnessOf(world: World, im: Raster): Option<real> {
    CalculateBrightness(Histogram(world.luminance(im)))
  }

  datatype Skip = AlreadyProcessed | NoUrl | BelowThreshold | BelowResolution

  /** The result of one call: it returns `True` exactly for `Saved`. */
  datatype Outcome =
    | Saved(file: string, size: Size)
    | Skipped(why: Skip)
    | Error(fault: Fault)

  /** `f"{image_id}_{w}x{h}.png"`: the ID, then the size in decimal, in a
      PNG file name. */
  function SavedName(id: string, size: Size): (r: string)
    ensures StartsWith(r, id + "_")
    ensures |r| > |id| + 4 && r[|r| - 4..] == ".png"
    ensures |r| == |id| + |Show(size.width)| + |Show(size.height)| + 6
    ensures r[|id| + 1 .. |r| - 4] == Show(size.width) + "x" + Show(size.height)
  {
    id + "_" + Show(size.width) + "x" + Show(size.height) + ".png"
  }

  /** One ID's saves at two different sizes never share a file name: the
      size can be read back from the name. */
  lemma SavedNameDeterminesSize(id: string, a: Size, b: Size)
    ensures SavedName(id, a) == SavedName(id, b) ==> a == b
  {
    var n := SavedName(id, a);
    if n == SavedName(id, b) {
      var m1 := Show(a.width) + "x" + Show(a.height);
      var m2 := Show(b.width) + "x" + Show(b.height);
      assert n == (id + "_") + m1 + ".png";
      assert SavedName(id, b) == (id + "_") + m2 + ".png";
      assert m1 == n[|id| + 1 .. |n| - 4] == m2;
      SplitAfterDigits(Show(a.width), Show(a.height), Show(b.width), Show(b.height), 'x');
      ShowInjective(a.width, b.width);
      ShowInjective(a.height, b.height);
    }
  }

  /** `requests.get(image_url)`: an empty URL is refused before any request;
      any other URL yields what the world holds for it. */
  function FetchImage(world: World, url: string): (r: Fetched<Raster>)
    ensures url == "" ==> r == Failed(InvalidUrl)
    ensures url != "" ==> r == world.image(url)
  {
    if url == "" then Failed(InvalidUrl) else world.image(url)
  }

  datatype Stage = Stop(outcome: Outcome) | Framed(im: Raster)

  /** The steps before the `process` switch: document, skip list, URL,
      image, letterbox crop and optional aspect crop. */
  function Frame(world: World, id: string, ratio: Option<Ratio>): (st: Stage)
    ensures st.Stop? ==> !st.outcome.Saved?
    ensures st.Framed? <==>
              && world.document(id).Got? && id !in world.processed
              && ResolveUrl(id, world.document(id).value).Some?
              && FetchImage(world, ResolveUrl(id, world.document(id).value).value).Got?
              && AnyNonMono(FetchImage(world, ResolveUrl(id, world.document(id).value).value).value, DefaultSensitivity)
    ensures st.Framed? && ratio.None? ==>
              st.im == CropImage(FetchImage(world, ResolveUrl(id, world.document(id).value).value).value, DefaultSensitivity).value
    ensures st.Framed? && ratio.Some? ==>
              var cropped := CropImage(FetchImage(world, ResolveUrl(id, world.document(id).value).value).value, DefaultSensitivity).value;
              cropped.height > 0 && st.im == CropToAspectRatio(cropped, ratio.value)
  {
    match world.document(id)
    case Failed(f) => Stop(Error(f))
    case Got(meta) =>
      if id in world.processed then Stop(Skipped(AlreadyProcessed))
      else match ResolveUrl(id, meta)
        case None => Stop(Skipped(NoUrl))
        case Some(url) =>
          match FetchImage(world, url)
          case Failed(f) => Stop(Error(f))
          case Got(raw) =>
            match CropImage(raw, DefaultSensitivity)
            case None => Stop(Error(EmptySelection))
            case Some(framed) =>
              if ratio.Some? then
                var r := CropToAspectRatio(framed, ratio.value);
                Framed(r)
              else Framed(framed)
  }

  /** `download_and_maybe_process_image(id, process, crop_ratio)`. */
  function Decide(world: World, id: string, process: bool, ratio: Option<Ratio>): (o: Outcome)
    ensures world.document(id).Failed? ==> o == Error(world.document(id).fault)
    ensures world.document(id).Got? && id in world.processed ==> o == Skipped(AlreadyProcessed)
    ensures && world.document(id).Got? && id !in world.processed
            && !StartsWith(id, CcdbPrefix) && !StartsWith(id, CilPrefix)
            ==> o == Skipped(NoUrl)
    ensures o.Saved? ==> Frame(world, id, ratio).Framed? && o.file == SavedName(id, o.size)
    ensures !process ==> (o.Saved? <==> Frame(world, id, ratio).Framed?)
    ensures !process && o.Saved? ==> o.size == Frame(world, id, ratio).im.Dims()
    ensures process ==>
              (o.Saved? <==>
                 && Frame(world, id, ratio).Framed?
                 && var im := Frame(world, id, ratio).im;
                    && Gate(BrightnessOf(world, im), world.contrast(im), world.entropy(im)) == Pass
                    && ProcessedSize(im.width, im.height).Resized?)
    ensures process && o.Saved? ==> o.size == ProcessedSize(Frame(world, id, ratio).im.width, Frame(world, id, ratio).im.height).size
  {
    match Frame(world, id, ratio)
    case Stop(o) => o
    case Framed(im) =>
      if !process then Saved(SavedName(id, im.Dims()), im.Dims())
      else
        match Gate(BrightnessOf(world, im), world.contrast(im), world.entropy(im))
        case TypeError => Error(Incomparable)
        case Reject => Skipped(BelowThreshold)
        case Pass =>
          match ProcessedSize(im.width, im.height)
          case TooSmall => Skipped(BelowResolution)
          case Unresizable => Error(Unexpected)
          case Resized(size) => Saved(SavedName(id, size), size)
  }

  /** Nothing is written unless it passed the quality gate and the
      resolution floor: the framed image is neither all black nor all white
      nor empty, has positive contrast and entropy below 10, is at least
      144 pixels each way, and is saved at most 1920 wide. */
  lemma SavedPassedChecks(world: World, id: string, ratio: Option<Ratio>)
    ensures Decide(world, id, true, ratio).Saved? ==>
            var im := Frame(world, id, ratio).im;
            var ps := world.luminance(im);
            && id !in world.processed
            && (exists k | 0 <= k < |ps| :: ps[k] != 0)
            && (exists k | 0 <= k < |ps| :: ps[k] != 255)
            && world.contrast(im).Some? && world.contrast(im).value > 0.0
            && world.entropy(im).Some? && world.entropy(im).value < 10.0
            && im.width >= MinResolution && im.height >= MinResolution
            && Decide(world, id, true, ratio).size.width <= MaxWidth
  {
    if Decide(world, id, true, ratio).Saved? {
      BrightnessOfPixels(world.luminance(Frame(world, id, ratio).im));
    }
  }

  /** A `CCDB_` document without a non-empty field whose last field is an
      empty string sends `requests.get("")`, which is refused: the call
      ends in `InvalidUrl` before any image is fetched. */
  lemma EmptyLastFieldIsInvalidUrl(world: World, id: string, meta: Metadata, process: bool, ratio: Option<Ratio>)
    requires world.document(id) == Got(meta) && id !in world.processed
    requires StartsWith(id, CcdbPrefix) && NoneTruthy(meta, CcdbFields)
    requires Lookup(meta, CcdbFields[|CcdbFields| - 1]) == Some("")
    ensures Decide(world, id, process, ratio) == Error(InvalidUrl)
  {
    assert ResolveUrl(id, meta) == Some("");
  }

  /** With the skip list, the outcome depends only on the document fetch:
      no image is fetched or measured. */
  lemma SkipListBeforeFetch(w1: World, w2: World, id: string, process: bool, ratio: Option<Ratio>)
    requires id in w1.processed && id in w2.processed
    requires w1.document(id) == w2.document(id)
    ensures Decide(w1, id, process, ratio) == Decide(w2, id, process, ratio)
  {
  }
}
