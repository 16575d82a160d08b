/** Identifier resolution shared by the three scripts: the two ID
    prefixes, the ordered CCDB metadata fields and the CIL thumbnail URL. */
module Dispatch {
  import opened Common

  /** A metadata document, looked up by the literal field string as
      `data.get(field)` does. */
  type Metadata = map<string, string>

  const CcdbPrefix := "CCDB_"
  const CilPrefix := "CIL_"

  /** `ccdb_fields`, in precedence order. */
  const CcdbFields: seq<string> := [
    "CIL_CCDB.CCDB.Recon_Display_image.URL",
    "CIL_CCDB.CCDB.Image2d.Image2D_Display_image.URL",
    "CIL_CCDB.CCDB.Segmentation.Seg_Display_image.URL"
  ]

  /** `data.get(field)`. */
  function Lookup(meta: Metadata, field: string): (r: Option<string>)
    ensures r.None? <==> field !in meta
    ensures r.Some? ==> r.value == meta[field]
  {
    if field in meta then Some(meta[field]) else None
  }

  /** Python truthiness of a looked-up string: present and non-empty. */
  predicate Truthy(v: Option<string>) {
    v.Some? && v.value != ""
  }

  /** Field `k` is the first of `fields` with a truthy value. */
  predicate FirstTruthyAt(meta: Metadata, fields: seq<string>, k: int) {
    && 0 <= k < |fields| && Truthy(Lookup(meta, fields[k]))
    && forall k' | 0 <= k' < k :: !Truthy(Lookup(meta, fields[k']))
  }

  /** Field `k` is the last of `fields` with a truthy value. */
  predicate LastTruthyAt(meta: Metadata, fields: seq<string>, k: int) {
    && 0 <= k < |fields| && Truthy(Lookup(meta, fields[k]))
    && forall k' | k < k' < |fields| :: !Truthy(Lookup(meta, fields[k']))
  }

  predicate NoneTruthy(meta: Metadata, fields: seq<string>) {
    forall k | 0 <= k < |fields| :: !Truthy(Lookup(meta, fields[k]))
  }

  /** What `image_url` holds after `for field in fields: image_url =
      data.get(field); if image_url: break`: the first truthy value, or,
      when there is none, whatever the last lookup returned. */
  function FirstTruthy(meta: Metadata, fields: seq<string>): (r: Option<string>)
    requires |fields| > 0
    ensures forall k | FirstTruthyAt(meta, fields, k) :: r == Lookup(meta, fields[k])
    ensures NoneTruthy(meta, fields) ==> r == Lookup(meta, fields[|fields| - 1])
    ensures Truthy(r) <==> !NoneTruthy(meta, fields)
  {
    var v := Lookup(meta, fields[0]);
    if Truthy(v) || |fields| == 1 then v
    else
      var r := FirstTruthy(meta, fields[1..]);
      forall k | FirstTruthyAt(meta, fields, k)
        ensures FirstTruthyAt(meta, fields[1..], k - 1)
      {
      }
      r
  }

  const ThumbnailBase := "https://cildata.crbs.ucsd.edu/media/thumbnail_display/"
  const ThumbnailTail := "_thumbnailx512.jpg"

  /** The URL of the CIL thumbnail for the number `n`: the number names both
      the directory and the file, so it can be read back from either place. */
  function ThumbnailUrl(n: string): (r: string)
    ensures StartsWith(r, ThumbnailBase)
    ensures |r| == |ThumbnailBase| + 2 * |n| + 1 + |ThumbnailTail|
    ensures r[|ThumbnailBase| .. |ThumbnailBase| + |n|] == n
    ensures r[|ThumbnailBase| + |n|] == '/'
    ensures r[|r| - |ThumbnailTail| - |n| .. |r| - |ThumbnailTail|] == n
    ensures r[|r| - |ThumbnailTail| ..] == ThumbnailTail
  {
    ThumbnailBase + n + "/" + n + ThumbnailTail
  }

  /** URL resolution of the processing script: `CCDB_` IDs take the first
      non-empty field in `ccdb_fields` order, `CIL_` IDs the thumbnail of
      `id[4:]`, anything else no URL. */
  function ResolveUrl(id: string, meta: Metadata): (r: Option<string>)
    ensures StartsWith(id, CcdbPrefix) ==>
              && (forall k | FirstTruthyAt(meta, CcdbFields, k) :: r == Lookup(meta, CcdbFields[k]))
              && (NoneTruthy(meta, CcdbFields) ==> r == Lookup(meta, CcdbFields[2]) && !Truthy(r))
    ensures StartsWith(id, CilPrefix) ==> r == Some(ThumbnailUrl(Suffix(id, 4)))
    ensures !StartsWith(id, CcdbPrefix) && !StartsWith(id, CilPrefix) ==> r.None?
  {
    PrefixesDisjoint(id);
    if StartsWith(id, CcdbPrefix) then FirstTruthy(meta, CcdbFields)
    else if StartsWith(id, CilPrefix) then Some(ThumbnailUrl(Suffix(id, 4)))
    else None
  }

  /** The two prefixes exclude each other. */
  lemma PrefixesDisjoint(id: string)
    ensures !(StartsWith(id, CcdbPrefix) && StartsWith(id, CilPrefix))
  {
    if StartsWith(id, CcdbPrefix) {
      assert id[1] == 'C';
    }
  }

  /** How many of `fields` have a truthy value. */
  function CountTruthy(meta: Metadata, fields: seq<string>): nat {
    if |fields| == 0 then 0
    else (if Truthy(Lookup(meta, fields[0])) then 1 else 0) + CountTruthy(meta, fields[1..])
  }

  /** The truthy values of `fields`, in order: every URL the no-break loops
      of the download-only scripts fetch. `TruthyValuesExact` says where
      each one sits. */
  function TruthyValues(meta: Metadata, fields: seq<string>): (r: seq<string>)
    ensures |r| == CountTruthy(meta, fields) && |r| <= |fields|
    ensures forall x | x in r :: x != ""
    ensures |r| == 0 <==> NoneTruthy(meta, fields)
  {
    if |fields| == 0 then []
    else
      var v := Lookup(meta, fields[0]);
      var rest := TruthyValues(meta, fields[1..]);
      assert NoneTruthy(meta, fields) <==> !Truthy(v) && NoneTruthy(meta, fields[1..]);
      if Truthy(v) then [v.value] + rest else rest
  }

  /** The value of the truthy field `k` is fetched after exactly as many
      URLs as there are truthy fields before it. */
  predicate FetchedAt(meta: Metadata, fields: seq<string>, r: seq<string>, k: int)
    requires 0 <= k < |fields|
  {
    CountTruthy(meta, fields[..k]) < |r| && Some(r[CountTruthy(meta, fields[..k])]) == Lookup(meta, fields[k])
  }

  /** The no-break loop fetches every truthy field's value, in field order,
      and nothing else. */
  lemma {:induction false} TruthyValuesExact(meta: Metadata, fields: seq<string>)
    ensures forall k | 0 <= k < |fields| && Truthy(Lookup(meta, fields[k])) ::
              FetchedAt(meta, fields, TruthyValues(meta, fields), k)
    ensures forall x | x in TruthyValues(meta, fields) ::
              exists k | 0 <= k < |fields| :: Lookup(meta, fields[k]) == Some(x)
  {
    if |fields| > 0 {
      var v := Lookup(meta, fields[0]);
      var rest := TruthyValues(meta, fields[1..]);
      var r := TruthyValues(meta, fields);
      TruthyValuesExact(meta, fields[1..]);
      forall k | 0 < k < |fields| && Truthy(Lookup(meta, fields[k]))
        ensures FetchedAt(meta, fields, r, k)
      {
        assert fields[..k][1..] == fields[1..][..k - 1];
        assert fields[1..][k - 1] == fields[k];
        assert FetchedAt(meta, fields[1..], rest, k - 1);
      }
      forall x | x in r
        ensures exists k | 0 <= k < |fields| :: Lookup(meta, fields[k]) == Some(x)
      {
        if x in rest {
          var k :| 0 <= k < |fields[1..]| && Lookup(meta, fields[1..][k]) == Some(x);
          assert fields[k + 1] == fields[1..][k];
        } else {
          assert Lookup(meta, fields[0]) == Some(x);
        }
      }
    }
  }

  /** The no-break loop fetches first the URL the `break` loop stops at. */
  lemma {:induction false} TruthyValuesFirst(meta: Metadata, fields: seq<string>)
    requires !NoneTruthy(meta, fields)
    ensures Some(TruthyValues(meta, fields)[0]) == FirstTruthy(meta, fields)
  {
    if !Truthy(Lookup(meta, fields[0])) {
      TruthyValuesFirst(meta, fields[1..]);
    }
  }

  /** The no-break loop fetches last the value of the last truthy field. */
  lemma {:induction false} TruthyValuesLast(meta: Metadata, fields: seq<string>, k: int)
    requires LastTruthyAt(meta, fields, k)
    ensures var vs := TruthyValues(meta, fields);
            Some(vs[|vs| - 1]) == Lookup(meta, fields[k])
  {
    assert forall j | 1 <= j < |fields| :: fields[1..][j - 1] == fields[j];
    if k > 0 {
      assert LastTruthyAt(meta, fields[1..], k - 1);
      TruthyValuesLast(meta, fields[1..], k - 1);
    } else {
      assert NoneTruthy(meta, fields[1..]);
    }
  }
}
