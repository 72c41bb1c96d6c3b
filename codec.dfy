/** The saved form of the job list at record level: each entry becomes a JSON
    object with the string fields "title", "company" and "status". The JSON
    text itself (printing and parsing) is not part of this model; a record is
    the map from field names to string values that the JSON library builds or
    reads. */
module Codec {
  import opened Jobs

  /** A JSON object whose values are strings. */
  type JsonObject = map<string, string>

  const TitleKey: string := "title"
  const CompanyKey: string := "company"
  const StatusKey: string := "status"

  /** The record `encodeJobs` puts into the array for one entry. */
  function ToObject(job: JobItem): (o: JsonObject)
    ensures o.Keys == {TitleKey, CompanyKey, StatusKey}
    ensures o[TitleKey] == job.title && o[CompanyKey] == job.company && o[StatusKey] == job.status
  {
    map[TitleKey := job.title, CompanyKey := job.company, StatusKey := job.status]
  }

  /** `JSONObject.optString(key, fallback)`: the value under `key`, or
      `fallback` when the record has no such field. */
  function OptString(o: JsonObject, key: string, fallback: string): string
  {
    if key in o then o[key] else fallback
  }

  /** The entry `decodeJobs` builds from one record: a field the record has is
      taken as it is; a missing title or company reads as "", a missing
      status as "Wishlist". */
  function FromObject(o: JsonObject): (r: JobItem)
    ensures r.title == (if TitleKey in o then o[TitleKey] else "")
    ensures r.company == (if CompanyKey in o then o[CompanyKey] else "")
    ensures r.status == (if StatusKey in o then o[StatusKey] else "Wishlist")
  {
    JobItem(OptString(o, TitleKey, ""), OptString(o, CompanyKey, ""), OptString(o, StatusKey, DefaultStatus))
  }

  /** The array `encodeJobs` builds: one record per entry, in list order. */
  function Encoded(jobs: seq<JobItem>): seq<JsonObject>
  {
    seq(|jobs|, i requires 0 <= i < |jobs| => ToObject(jobs[i]))
  }

  /** `decodeJobs`: `List(n) { i -> ... }`, one entry per record, in array
      order; a record holding all three fields gives exactly their values. */
  function DecodeJobs(arr: seq<JsonObject>): (r: seq<JobItem>)
    ensures |r| == |arr|
    ensures forall i :: 0 <= i < |arr| ==> r[i] == FromObject(arr[i])
    ensures forall i :: 0 <= i < |arr| && {TitleKey, CompanyKey, StatusKey} <= arr[i].Keys ==>
              r[i] == JobItem(arr[i][TitleKey], arr[i][CompanyKey], arr[i][StatusKey])
  {
    seq(|arr|, i requires 0 <= i < |arr| => FromObject(arr[i]))
  }

  /** `encodeJobs`: a `forEach` over the list that `put`s one record per entry
      into a fresh array. Every record carries all three fields, and each
      decodes back to the entry it was built from. */
  method EncodeJobs(jobs: seq<JobItem>) returns (arr: seq<JsonObject>)
    ensures |arr| == |jobs|
    ensures forall i :: 0 <= i < |arr| ==> arr[i].Keys == {TitleKey, CompanyKey, StatusKey}
    ensures forall i :: 0 <= i < |arr| ==> FromObject(arr[i]) == jobs[i]
    ensures arr == Encoded(jobs)
  {
    arr := [];
    for i := 0 to |jobs|
      invariant |arr| == i
      invariant forall k :: 0 <= k < i ==> arr[k] == ToObject(jobs[k])
    {
      arr := arr + [ToObject(jobs[i])];
    }
  }

  /** Decoding what was encoded gives back the same entries, in the same order. */
  lemma DecodeEncode(jobs: seq<JobItem>)
    ensures DecodeJobs(Encoded(jobs)) == jobs
  {
  }

  /** Conversely, records that carry exactly the three fields come back
      unchanged from a decode followed by an encode. */
  lemma EncodeDecode(arr: seq<JsonObject>)
    requires forall i :: 0 <= i < |arr| ==> arr[i].Keys == {TitleKey, CompanyKey, StatusKey}
    ensures Encoded(DecodeJobs(arr)) == arr
  {
    var e := Encoded(DecodeJobs(arr));
    forall i | 0 <= i < |arr| ensures e[i] == arr[i] {
      assert e[i].Keys == arr[i].Keys;
    }
  }
}
