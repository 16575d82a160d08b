/** The processing script's top level: the ID filter and the batch loop. */
module Driver {
  import opened Common
  import opened Decimal
  import opened Dispatch
  import opened Env
  import opened Decision

  const NumImages := 4000
  const IdLimit := 50000
  /** `crop_ratio = 4/3`. */
  const CropRatio := Ratio(4, 3)

  /** `int(id[4:])` succeeds. */
  predicate Parses(id: string) {
    ParseInt(Suffix(id, 4)).Some?
  }

  /** `int(id[4:]) <= 50000`. */
  function Kept(id: string): (r: bool)
    ensures r ==> Parses(id) && |id| > 4
  {
    var n := ParseInt(Suffix(id, 4));
    n.Some? && n.value <= IdLimit
  }

  /** An ID whose number is the decimal `n` is kept iff `n <= 50000`; a
      negative number is always kept. */
  lemma KeptNumber(id: string, n: nat)
    ensures Suffix(id, 4) == Show(n) ==> (Kept(id) <==> n <= IdLimit)
    ensures Suffix(id, 4) == "-" + Show(n) ==> Kept(id)
  {
    ParseShow(n);
  }

  /** `[id for id in ids if int(id[4:]) <= 50000]`; `None` where `int`
      raises, which nothing catches, so the script stops there. */
  function FilterIds(ids: seq<string>): (r: Option<seq<string>>)
    ensures r.None? <==> exists k | 0 <= k < |ids| :: !Parses(ids[k])
    ensures r.Some? ==> |r.value| <= |ids|
    ensures r.Some? ==> forall x | x in r.value :: x in ids && Kept(x)
    ensures r.Some? ==> forall k | 0 <= k < |ids| && Kept(ids[k]) :: ids[k] in r.value
    ensures r.Some? ==> forall x :: multiset(r.value)[x] == if Kept(x) then multiset(ids)[x] else 0
  {
    if exists k | 0 <= k < |ids| :: !Parses(ids[k]) then None
    else
      var r := KeptOf(ids);
      KeptMembers(ids, r);
      Some(r)
  }

  /** The comprehension once every ID parses: each kept ID as often as it
      occurs, and nothing else. */
  function KeptOf(ids: seq<string>): (r: seq<string>)
    ensures |r| <= |ids|
    ensures forall x :: multiset(r)[x] == if Kept(x) then multiset(ids)[x] else 0
  {
    if |ids| == 0 then []
    else
      var kept := KeptOf(ids[1..]);
      assert ids == [ids[0]] + ids[1..];
      KeptCounts(ids[0], ids[1..], kept);
      if Kept(ids[0]) then [ids[0]] + kept else kept
  }

  /** Counts that agree on the kept IDs give the same kept members. */
  lemma KeptMembers(ids: seq<string>, r: seq<string>)
    requires forall x :: multiset(r)[x] == if Kept(x) then multiset(ids)[x] else 0
    ensures forall x | x in r :: x in ids && Kept(x)
    ensures forall k | 0 <= k < |ids| && Kept(ids[k]) :: ids[k] in r
  {
    forall x | x in r
      ensures x in ids && Kept(x)
    {
      assert multiset(r)[x] > 0;
    }
    forall k | 0 <= k < |ids| && Kept(ids[k])
      ensures ids[k] in r
    {
      assert multiset(ids)[ids[k]] > 0;
    }
  }

  /** One step of the comprehension keeps the count of every kept ID. */
  lemma KeptCounts(id: string, rest: seq<string>, kept: seq<string>)
    requires forall x :: multiset(kept)[x] == if Kept(x) then multiset(rest)[x] else 0
    ensures var r := if Kept(id) then [id] + kept else kept;
            forall x :: multiset(r)[x] == if Kept(x) then multiset([id] + rest)[x] else 0
  {
    assert multiset([id] + rest) == multiset{id} + multiset(rest);
    assert multiset([id] + kept) == multiset{id} + multiset(kept);
  }

  /** Every `CCDB_` ID stops the script at the filter: `id[4:]` then starts
      with `_`, which `int` refuses. */
  lemma CcdbIdAbortsFilter(ids: seq<string>, k: int)
    requires 0 <= k < |ids| && StartsWith(ids[k], CcdbPrefix)
    ensures FilterIds(ids).None?
  {
    assert Suffix(ids[k], 4)[0] == ids[k][4] == '_';
  }

  /** The driver's call `download_and_maybe_process_image(id, process=True,
      crop_ratio=4/3)` returns `True`. */
  predicate Success(world: World, id: string) {
    Decide(world, id, true, Some(CropRatio)).Saved?
  }

  /** How many of `ids` pass `ok`. */
  function Successes(ok: string -> bool, ids: seq<string>): nat {
    if |ids| == 0 then 0
    else Successes(ok, ids[..|ids| - 1]) + (if ok(ids[|ids| - 1]) then 1 else 0)
  }

  /** A prefix has no more successes than the whole. */
  lemma {:induction false} SuccessesOfPrefix(ok: string -> bool, ids: seq<string>, i: nat)
    requires i <= |ids|
    ensures Successes(ok, ids[..i]) <= Successes(ok, ids)
  {
    if i < |ids| {
      var init := ids[..|ids| - 1];
      assert init[..i] == ids[..i];
      SuccessesOfPrefix(ok, init, i);
    } else {
      assert ids[..i] == ids;
    }
  }

  /** The `while` loop over the filtered, shuffled `ids`, with `ok` the
      outcome of one download: it stops once `num` images are saved or the
      IDs run out, advances `index` once per ID and counts only the
      successes. */
  method RunBatch(ok: string -> bool, ids: seq<string>, num: nat) returns (downloaded: nat, index: nat)
    ensures downloaded <= num && index <= |ids| && downloaded <= index
    ensures downloaded == Successes(ok, ids[..index])
    ensures downloaded == Min(num, Successes(ok, ids))
    ensures downloaded < num ==> index == |ids|
    ensures downloaded == num && num > 0 ==> 0 < index && ok(ids[index - 1])
  {
    downloaded, index := 0, 0;
    while downloaded < num && index < |ids|
      invariant downloaded <= num && index <= |ids| && downloaded <= index
      invariant downloaded == Successes(ok, ids[..index])
      invariant downloaded == num && num > 0 ==> 0 < index && ok(ids[index - 1])
      decreases |ids| - index
    {
      assert ids[..index + 1][..index] == ids[..index];
      if ok(ids[index]) {
        downloaded := downloaded + 1;
      }
      index := index + 1;
    }
    SuccessesOfPrefix(ok, ids, index);
    if index == |ids| {
      assert ids[..index] == ids;
    }
  }

  /** The script's main flow: filter the IDs, reorder them with `shuffle`
      (the time-seeded `random.shuffle`, a parameter here), then run the
      batch with `num_images = 4000`; `None` when the filter raises. */
  method RunScript(world: World, ids: seq<string>, shuffle: seq<string> -> seq<string>) returns (r: Option<nat>)
    ensures r.None? <==> exists k | 0 <= k < |ids| :: !Parses(ids[k])
    ensures r.Some? ==> r.value == Min(NumImages, Successes(id => Success(world, id), shuffle(FilterIds(ids).value)))
  {
    var kept := FilterIds(ids);
    if kept.None? {
      return None;
    }
    var downloaded, _ := RunBatch(id => Success(world, id), shuffle(kept.value), NumImages);
    return Some(downloaded);
  }
}
