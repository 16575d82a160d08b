/** The two download-only scripts: the plain one saves every image as
    `{id}.jpg`, the cinema one first fits it to 2.39:1 at 1920x804 and
    saves it as `{id}_cinema.jpg`. Both share one per-ID function and one
    bounded loop; they differ only in the step applied before saving. */
module NoProcess {
  import opened Common
  import opened Raster
  import opened Aspect
  import opened Dispatch
  import opened Env

  datatype Variant = Plain | Cinema

  /** The file name, without the output folder: the ID, then a JPEG
      extension, `_cinema` before it in the cinema script. */
  function OutputName(id: string, v: Variant): (r: string)
    ensures StartsWith(r, id) && |r| == |id| + (if v.Plain? then 4 else 11)
    ensures r[|r| - 4..] == ".jpg"
    ensures r[|id|..] == if v.Plain? then ".jpg" else "_cinema.jpg"
  {
    match v
    case Plain => id + ".jpg"
    case Cinema => id + "_cinema.jpg"
  }

  /** Within one script, two IDs never write the same file. */
  lemma OutputNameInjective(a: string, b: string, v: Variant)
    ensures OutputName(a, v) == OutputName(b, v) ==> a == b
  {
    var n := OutputName(a, v);
    if n == OutputName(b, v) {
      assert a == n[..|a|] && b == n[..|b|];
    }
  }

  /** The image URLs `download_image` fetches, in order. Unlike the
      processing script, the CCDB loop has no `break`: every non-empty
      field is fetched. */
  function Plan(id: string, meta: Metadata): (r: seq<string>)
    ensures StartsWith(id, CcdbPrefix) ==>
              && |r| == CountTruthy(meta, CcdbFields)
              && (forall k | 0 <= k < |CcdbFields| && Truthy(Lookup(meta, CcdbFields[k])) :: FetchedAt(meta, CcdbFields, r, k))
              && (forall x | x in r :: x != "" && exists k | 0 <= k < |CcdbFields| :: Lookup(meta, CcdbFields[k]) == Some(x))
    ensures StartsWith(id, CilPrefix) ==> r == [ThumbnailUrl(Suffix(id, 4))]
    ensures !StartsWith(id, CcdbPrefix) && !StartsWith(id, CilPrefix) ==> r == []
  {
    PrefixesDisjoint(id);
    if StartsWith(id, CcdbPrefix) then
      TruthyValuesExact(meta, CcdbFields);
      TruthyValues(meta, CcdbFields)
    else if StartsWith(id, CilPrefix) then [ThumbnailUrl(Suffix(id, 4))]
    else []
  }

  /** One `image.save(filename, "JPEG")`. */
  datatype Written = Written(file: string, url: string, size: Size)

  /** What one call leaves behind: the saves it made, in order, and the
      exception that ended it, if any. */
  datatype Report = Report(writes: seq<Written>, fault: Option<Fault>)

  /** The cinema fit of a `w`x`h` image gets to its final resize: the
      height is positive, and a too-tall image has a pad target of positive
      height into which it shrinks to a positive width, and is not of a
      one-band mode, whose canvas refuses the colour `(0, 0, 0)`. */
  predicate CinemaFits(w: nat, h: nat, oneBand: bool) {
    && h > 0
    && (TallerThan(w, h, CinemaRatio) ==>
          var nh := Shortened(w, h, CinemaRatio);
          nh > 0 && 2 * (w * nh) > h && !oneBand)
  }

  /** The size an image is saved at, or the fault the step before saving
      raises: in the cinema script, `width / height` divides by zero on a
      zero-height image, and `ImageOps.pad` raises on a pad target of
      height 0, when the image would shrink to width 0 inside it, and when
      it fills the canvas of a one-band image with a three-element colour. */
  function SavedSize(im: Raster, v: Variant): (r: Fetched<Size>)
    ensures v.Plain? ==> r == Got(im.Dims())
    ensures v.Cinema? ==> (r.Got? <==> CinemaFits(im.width, im.height, OneBand(im)))
    ensures v.Cinema? && im.height > 0 && TallerThan(im.width, im.height, CinemaRatio) && OneBand(im) ==> r.Failed?
    ensures v.Cinema? && r.Got? ==> r.value == CinemaSize
    ensures v.Cinema? && im.height == 0 ==> r == Failed(ZeroDivision)
    ensures v.Cinema? && im.height > 0 && TallerThan(im.width, im.height, CinemaRatio) ==>
              (Shortened(im.width, im.height, CinemaRatio) == 0 ==> r == Failed(ZeroDivision))
  {
    match v
    case Plain => Got(im.Dims())
    case Cinema =>
      if im.height == 0 then Failed(ZeroDivision)
      else
        var adjusted := AdjustToCinemaAspect(im.width, im.height, CinemaRatio, CinemaSize);
        if adjusted.fit.PadTo? then
          var nh := adjusted.fit.target.height;
          ContainNeverFills(im.width, im.height, nh);
          match PadFails(im.width, im.height, nh, OneBand(im))
          case Some(TargetHeightZero) => Failed(ZeroDivision)
          case Some(ContainedWidthZero) => Failed(Unexpected)
          case Some(SingleBandFill) => Failed(Unexpected)
          case None => Got(adjusted.size)
        else Got(adjusted.size)
  }

  /** An image one or two pixels wide never reaches the cinema resize: its
      pad target `int(w / 2.39)` has height 0. */
  lemma NarrowFailsCinema(im: Raster)
    requires im.height > 0 && im.width <= 2
    ensures SavedSize(im, Cinema) == Failed(ZeroDivision)
  {
  }

  /** A witness that the width-0 failure happens: a 3x7 image is padded
      into a 3x1 target, inside which it would be `round(3 / 7)` = 0 pixels
      wide, so the cinema fit raises. `PadFails` states the condition for
      every size. */
  lemma VeryTallFailsCinema(im: Raster)
    requires im.width == 3 && im.height == 7
    ensures SavedSize(im, Cinema) == Failed(Unexpected)
  {
    assert Shortened(3, 7, CinemaRatio) == 1;
  }

  /** Fetch and save each URL of the plan in turn; the first exception
      ends the call, keeping the saves already made. */
  function Perform(world: World, file: string, urls: seq<string>, v: Variant): (r: Report)
    ensures |r.writes| <= |urls|
    ensures r.fault.None? <==> |r.writes| == |urls|
    ensures forall k | 0 <= k < |r.writes| ::
              && r.writes[k].file == file && r.writes[k].url == urls[k]
              && world.image(urls[k]).Got?
              && SavedSize(world.image(urls[k]).value, v) == Got(r.writes[k].size)
    ensures r.fault.Some? ==>
              var u := urls[|r.writes|];
              || world.image(u) == Failed(r.fault.value)
              || (world.image(u).Got? && SavedSize(world.image(u).value, v) == Failed(r.fault.value))
  {
    if |urls| == 0 then Report([], None)
    else
      match world.image(urls[0])
      case Failed(f) => Report([], Some(f))
      case Got(im) =>
        match SavedSize(im, v)
        case Failed(f) => Report([], Some(f))
        case Got(size) =>
          var rest := Perform(world, file, urls[1..], v);
          Report([Written(file, urls[0], size)] + rest.writes, rest.fault)
  }

  /** `download_image(image_id, output_folder)` of either script. */
  function DownloadImage(world: World, id: string, v: Variant): (r: Report)
    ensures world.document(id).Failed? ==> r == Report([], Some(world.document(id).fault))
    ensures forall w | w in r.writes :: w.file == OutputName(id, v)
    ensures v.Cinema? ==> forall w | w in r.writes :: w.size == CinemaSize
  {
    match world.document(id)
    case Failed(f) => Report([], Some(f))
    case Got(meta) => Perform(world, OutputName(id, v), Plan(id, meta), v)
  }

  /** The save whose file a call leaves on disk: every save goes to the
      same name, so the last one wins. */
  function FinalWrite(r: Report): Option<Written> {
    if |r.writes| == 0 then None else Some(r.writes[|r.writes| - 1])
  }

  /** The image at `u` is fetched and survives the step before saving. */
  predicate Saveable(world: World, u: string, v: Variant) {
    world.image(u).Got? && SavedSize(world.image(u).value, v).Got?
  }

  /** The plan starts where the processing script's URL resolution
      stops, and is empty exactly when that resolution has no usable URL. */
  lemma PlanStartsAtResolvedUrl(id: string, meta: Metadata)
    ensures |Plan(id, meta)| > 0 ==> Some(Plan(id, meta)[0]) == ResolveUrl(id, meta)
    ensures |Plan(id, meta)| == 0 <==> !Truthy(ResolveUrl(id, meta))
  {
    PrefixesDisjoint(id);
    if StartsWith(id, CcdbPrefix) && !NoneTruthy(meta, CcdbFields) {
      TruthyValuesFirst(meta, CcdbFields);
    }
  }

  /** With no usable URL (neither prefix, or a CCDB document without a
      non-empty field) nothing is fetched and nothing is saved. */
  lemma NoUrlNoSave(world: World, id: string, meta: Metadata, v: Variant)
    requires world.document(id) == Got(meta)
    requires !Truthy(ResolveUrl(id, meta))
    ensures DownloadImage(world, id, v) == Report([], None)
  {
    PlanStartsAtResolvedUrl(id, meta);
  }

  /** A `CIL_` ID fetches its one thumbnail and saves it under the ID's
      name: at its own size in the plain script, at 1920x804 in the cinema
      one. */
  lemma CilSavesThumbnail(world: World, id: string, meta: Metadata, v: Variant, im: Raster)
    requires StartsWith(id, CilPrefix) && world.document(id) == Got(meta)
    requires world.image(ThumbnailUrl(Suffix(id, 4))) == Got(im)
    requires SavedSize(im, v).Got?
    ensures var size := if v.Plain? then im.Dims() else CinemaSize;
            DownloadImage(world, id, v) == Report([Written(OutputName(id, v), ThumbnailUrl(Suffix(id, 4)), size)], None)
  {
    PrefixesDisjoint(id);
    var urls := [ThumbnailUrl(Suffix(id, 4))];
    assert Plan(id, meta) == urls;
    assert urls[1..] == [];
  }

  /** When every fetch and fit succeeds, the file a `CCDB_` ID leaves on
      disk holds the image of the LAST non-empty field, where the
      processing script keeps the first. */
  lemma LastFieldWins(world: World, id: string, meta: Metadata, v: Variant, k: int)
    requires StartsWith(id, CcdbPrefix) && world.document(id) == Got(meta)
    requires LastTruthyAt(meta, CcdbFields, k)
    requires forall u | u in TruthyValues(meta, CcdbFields) :: Saveable(world, u, v)
    ensures var u := Lookup(meta, CcdbFields[k]).value;
            && Saveable(world, u, v)
            && FinalWrite(DownloadImage(world, id, v))
               == Some(Written(OutputName(id, v), u, SavedSize(world.image(u).value, v).value))
  {
    assert DownloadImage(world, id, v) == Perform(world, OutputName(id, v), TruthyValues(meta, CcdbFields), v);
    LastTruthyFieldWins(world, OutputName(id, v), meta, CcdbFields, v, k);
  }

  /** `LastFieldWins` for any list of fields. */
  lemma LastTruthyFieldWins(world: World, file: string, meta: Metadata, fields: seq<string>, v: Variant, k: int)
    requires LastTruthyAt(meta, fields, k)
    requires forall u | u in TruthyValues(meta, fields) :: Saveable(world, u, v)
    ensures var u := Lookup(meta, fields[k]).value;
            && Saveable(world, u, v)
            && FinalWrite(Perform(world, file, TruthyValues(meta, fields), v))
               == Some(Written(file, u, SavedSize(world.image(u).value, v).value))
  {
    var urls := TruthyValues(meta, fields);
    TruthyValuesLast(meta, fields, k);
    var last := urls[|urls| - 1];
    assert Some(last) == Lookup(meta, fields[k]) && last in urls;
    PerformCompletes(world, file, urls, v);
  }

  /** A call stops early only on a failed fetch or fit; when none fails,
      every URL is saved and the last URL's image is the one left on disk. */
  lemma {:induction false} PerformCompletes(world: World, file: string, urls: seq<string>, v: Variant)
    requires forall u | u in urls :: Saveable(world, u, v)
    ensures Perform(world, file, urls, v).fault.None?
    ensures |urls| > 0 ==>
              var u := urls[|urls| - 1];
              FinalWrite(Perform(world, file, urls, v)) == Some(Written(file, u, SavedSize(world.image(u).value, v).value))
  {
    if |urls| > 0 {
      assert urls[0] in urls;
      assert forall u | u in urls[1..] :: u in urls;
      PerformCompletes(world, file, urls[1..], v);
    }
  }

  /** The `for i in range(n)` loop: one report per ID, in order, with
      `download` the per-ID call. */
  method DownloadEach(download: string -> Report, order: seq<string>, n: nat) returns (reports: seq<Report>)
    requires n <= |order|
    ensures |reports| == n
    ensures forall k | 0 <= k < n :: reports[k] == download(order[k])
  {
    reports := [];
    var i := 0;
    while i < n
      invariant i <= n && |reports| == i
      invariant forall k | 0 <= k < i :: reports[k] == download(order[k])
    {
      reports := reports + [download(order[i])];
      i := i + 1;
    }
  }

  /** `main(num_images, output_folder)`: shuffle, then call
      `download_image` on the first `min(num_images, len(ids))` IDs; no
      call's failure stops the loop. */
  method RunMain(world: World, ids: seq<string>, shuffle: seq<string> -> seq<string>, num: int, v: Variant)
    returns (reports: seq<Report>)
    ensures |reports| == if num <= 0 then 0 else Min(num, |shuffle(ids)|)
    ensures forall k | 0 <= k < |reports| :: reports[k] == DownloadImage(world, shuffle(ids)[k], v)
  {
    var order := shuffle(ids);
    var n: nat := if num <= 0 then 0 else Min(num, |order|);
    reports := DownloadEach(id => DownloadImage(world, id, v), order, n);
  }
}
