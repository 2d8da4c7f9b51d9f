/**
 * The Public Data API client: request bodies and parameters, and the
 * batching of series ids into requests of at most fifty. The HTTP layer is
 * an oracle from request body (or parameters) to response.
 */
module PublicData {
  import opened Wrappers

  /** `_MAX_SERIES_PER_REQUEST`: the API takes at most fifty series per request. */
  const MaxSeriesPerRequest: nat := 50

  /** JSON values, as the request bodies and the series entries carry them. */
  datatype Json =
    | JNull
    | JBool(b: bool)
    | JNum(n: int)
    | JStr(s: string)
    | JArr(items: seq<Json>)
    | JObj(fields: map<string, Json>)

  /** A POST body, a JSON object. */
  type Body = map<string, Json>

  /** The response of the time-series endpoint, as far as the client reads it. */
  datatype SeriesResults = SeriesResults(series: Option<seq<Json>>)
  datatype TimeseriesResponse = TimeseriesResponse(status: string, results: Option<SeriesResults>)

  // ---------------------------------------------------------------------
  // Request bodies
  // ---------------------------------------------------------------------

  /** The ids as a JSON array of strings. */
  function IdArray(ids: seq<string>): (r: seq<Json>)
    ensures |r| == |ids|
    ensures forall i :: 0 <= i < |ids| ==> r[i] == JStr(ids[i])
  {
    seq(|ids|, i requires 0 <= i < |ids| => JStr(ids[i]))
  }

  /** `{"seriesid": ids}` updated with the options: an option key overrides, `seriesid` included. */
  function RequestBody(ids: seq<string>, options: Body): (b: Body)
    ensures b.Keys == options.Keys + {"seriesid"}
    ensures forall k :: k in options ==> b[k] == options[k]
    ensures "seriesid" !in options ==> b["seriesid"] == JArr(IdArray(ids))
  {
    map["seriesid" := JArr(IdArray(ids))] + options
  }

  /** The body `get_series` posts for one id. */
  function SeriesBody(seriesId: string, options: Body): (b: Body)
    ensures b.Keys == options.Keys + {"seriesid"}
    ensures forall k :: k in options ==> b[k] == options[k]
    ensures "seriesid" !in options ==> b["seriesid"] == JArr([JStr(seriesId)])
  {
    RequestBody([seriesId], options)
  }

  /** `get_series`: one POST of the one-id body; the response is returned as it comes. */
  method GetSeries(seriesId: string, options: Body, post: Body -> TimeseriesResponse)
    returns (resp: TimeseriesResponse, sent: Body)
    ensures sent == SeriesBody(seriesId, options)
    ensures resp == post(sent)
  {
    sent := map["seriesid" := JArr([JStr(seriesId)])];
    sent := sent + options;
    resp := post(sent);
  }

  // ---------------------------------------------------------------------
  // Chunking
  // ---------------------------------------------------------------------

  function Min(a: int, b: int): int { if a <= b then a else b }

  /** The consecutive runs of at most fifty ids, front to back. */
  function Chunks(ids: seq<string>): (r: seq<seq<string>>)
    decreases |ids|
  {
    if ids == [] then []
    else
      var n := Min(MaxSeriesPerRequest, |ids|);
      [ids[..n]] + Chunks(ids[n..])
  }

  /** The runs, one after the other. */
  function Flatten<T>(runs: seq<seq<T>>): seq<T>
    decreases |runs|
  {
    if runs == [] then [] else runs[0] + Flatten(runs[1..])
  }

  /** The chunks concatenate back to the ids. */
  lemma {:induction false} ChunksFlatten(ids: seq<string>)
    ensures Flatten(Chunks(ids)) == ids
    decreases |ids|
  {
    if ids != [] {
      var n := Min(MaxSeriesPerRequest, |ids|);
      ChunksFlatten(ids[n..]);
      assert Chunks(ids) == [ids[..n]] + Chunks(ids[n..]);
      assert ids == ids[..n] + ids[n..];
    }
  }

  /** There are as many chunks as fifty goes into the count of ids, rounded up. */
  lemma {:induction false} ChunksCount(ids: seq<string>)
    ensures |Chunks(ids)| == (|ids| + MaxSeriesPerRequest - 1) / MaxSeriesPerRequest
    decreases |ids|
  {
    if ids != [] {
      var n := Min(MaxSeriesPerRequest, |ids|);
      ChunksCount(ids[n..]);
    }
  }

  /** Chunk `j` is the slice `ids[50 j : 50 j + 50]` of `range(0, len(ids), 50)`, clamped at the end. */
  lemma {:induction false} ChunkAt(ids: seq<string>, j: nat)
    requires j < |Chunks(ids)|
    ensures MaxSeriesPerRequest * j < |ids|
    ensures Chunks(ids)[j] == ids[MaxSeriesPerRequest * j .. Min(MaxSeriesPerRequest * j + MaxSeriesPerRequest, |ids|)]
    decreases |ids|
  {
    var n := Min(MaxSeriesPerRequest, |ids|);
    var rest := ids[n..];
    assert Chunks(ids) == [ids[..n]] + Chunks(rest);
    if j > 0 {
      assert Chunks(ids)[j] == Chunks(rest)[j - 1];
      ChunkAt(rest, j - 1);
      assert n == MaxSeriesPerRequest;
      var lo := MaxSeriesPerRequest * (j - 1);
      var hi := Min(lo + MaxSeriesPerRequest, |rest|);
      assert rest[lo..hi] == ids[n + lo .. n + hi];
    }
  }

  /** There is a chunk `j` exactly when the slice starting at `50 j` is inside the ids. */
  lemma ChunkExists(ids: seq<string>, j: nat)
    ensures j < |Chunks(ids)| <==> MaxSeriesPerRequest * j < |ids|
  {
    ChunksCount(ids);
  }

  /** Every chunk holds one to fifty ids, and all but the last hold exactly fifty. */
  lemma ChunkSizes(ids: seq<string>, j: nat)
    requires j < |Chunks(ids)|
    ensures 1 <= |Chunks(ids)[j]| <= MaxSeriesPerRequest
    ensures j + 1 < |Chunks(ids)| ==> |Chunks(ids)[j]| == MaxSeriesPerRequest
  {
    ChunkAt(ids, j);
    if j + 1 < |Chunks(ids)| {
      ChunkAt(ids, j + 1);
    }
  }

  // ---------------------------------------------------------------------
  // `get_many_series`
  // ---------------------------------------------------------------------

  /** The `series` list of a response's `Results`: a missing object or list counts as empty. */
  function SeriesOf(resp: TimeseriesResponse): (r: seq<Json>)
    ensures resp.results.None? ==> r == []
    ensures resp.results.Some? && resp.results.value.series.None? ==> r == []
    ensures resp.results.Some? && resp.results.value.series.Some? ==> r == resp.results.value.series.value
  {
    match resp.results
    case None => []
    case Some(results) => results.series.GetOr([])
  }

  /** The bodies `get_many_series` posts, one per chunk, in order. */
  function Requests(ids: seq<string>, options: Body): (r: seq<Body>)
  {
    seq(|Chunks(ids)|, j requires 0 <= j < |Chunks(ids)| => RequestBody(Chunks(ids)[j], options))
  }

  /** The series of each response to the bodies, concatenated in order. */
  function Merged(bodies: seq<Body>, post: Body -> TimeseriesResponse): seq<Json>
    decreases |bodies|
  {
    if bodies == [] then [] else Merged(bodies[..|bodies| - 1], post) + SeriesOf(post(bodies[|bodies| - 1]))
  }

  /** `get_many_series`: post one body per chunk of at most fifty ids and merge the series lists. */
  method GetManySeries(ids: seq<string>, options: Body, post: Body -> TimeseriesResponse)
    returns (merged: seq<Json>, sent: seq<Body>)
    ensures sent == Requests(ids, options)
    ensures merged == Merged(sent, post)
    ensures ids == [] ==> merged == [] && sent == []
  {
    if ids == [] {
      return [], [];
    }
    // `range(0, len(ids), 50)` visits i = 50 j for each chunk index j
    var count := (|ids| + MaxSeriesPerRequest - 1) / MaxSeriesPerRequest;
    ghost var all := Requests(ids, options);
    ChunksCount(ids);
    assert count == |all|;
    assert all[..0] == [];
    merged, sent := [], [];
    for j := 0 to count
      invariant sent == all[..j]
      invariant merged == Merged(sent, post)
    {
      var body, series := PostChunk(ids, options, post, j);
      MergedSnoc(sent, body, post);
      PrefixSnoc(all, j);
      merged := merged + series;
      sent := sent + [body];
    }
    assert all[..count] == all;
  }

  /** The prefix of length `j + 1` extends the prefix of length `j` by element `j`. */
  lemma PrefixSnoc<T>(s: seq<T>, j: nat)
    requires j < |s|
    ensures s[..j + 1] == s[..j] + [s[j]]
  {
  }

  /** One pass of the `get_many_series` loop: slice chunk `j`, post its body, read its series. */
  method PostChunk(ids: seq<string>, options: Body, post: Body -> TimeseriesResponse, j: nat)
    returns (body: Body, series: seq<Json>)
    requires j < |Chunks(ids)|
    ensures body == Requests(ids, options)[j]
    ensures series == SeriesOf(post(body))
  {
    ChunkAt(ids, j);
    var i := MaxSeriesPerRequest * j;
    var chunk := ids[i..Min(i + MaxSeriesPerRequest, |ids|)];
    body := map["seriesid" := JArr(IdArray(chunk))];
    body := body + options;
    var resp := post(body);
    series := SeriesOf(resp);
  }

  /** Merging one more body appends its series. */
  lemma MergedSnoc(bodies: seq<Body>, body: Body, post: Body -> TimeseriesResponse)
    ensures Merged(bodies + [body], post) == Merged(bodies, post) + SeriesOf(post(body))
  {
    assert (bodies + [body])[..|bodies|] == bodies;
  }

  /** Merging two runs of bodies concatenates their series. */
  lemma {:induction false} MergedAppend(a: seq<Body>, b: seq<Body>, post: Body -> TimeseriesResponse)
    ensures Merged(a + b, post) == Merged(a, post) + Merged(b, post)
    decreases |b|
  {
    if b == [] {
      assert a + b == a;
    } else {
      var b' := b[..|b| - 1];
      assert (a + b)[..|a + b| - 1] == a + b';
      assert (a + b)[|a + b| - 1] == b[|b| - 1];
      MergedAppend(a, b', post);
    }
  }

  /** Responses without series contribute nothing. */
  lemma {:induction false} MergedNoSeries(bodies: seq<Body>, post: Body -> TimeseriesResponse)
    requires forall j :: 0 <= j < |bodies| ==> SeriesOf(post(bodies[j])) == []
    ensures Merged(bodies, post) == []
    decreases |bodies|
  {
    if bodies != [] {
      MergedNoSeries(bodies[..|bodies| - 1], post);
    }
  }

  /** Without options, the ids the requests carry are the ids given, in order. */
  lemma RequestsCarryIds(ids: seq<string>)
    ensures forall j :: 0 <= j < |Requests(ids, map[])| ==>
      Requests(ids, map[])[j]["seriesid"] == JArr(IdArray(Chunks(ids)[j]))
    ensures Flatten(Chunks(ids)) == ids
  {
    ChunksFlatten(ids);
  }

  // ---------------------------------------------------------------------
  // `get_latest`, `get_popular`, `get_survey`, `list_surveys_list`
  // ---------------------------------------------------------------------

  /** `get_latest` takes one id or a sequence of them. */
  datatype SeriesIds = Single(id: string) | Many(ids: seq<string>)

  function IdList(s: SeriesIds): seq<string> {
    match s
    case Single(id) => [id]
    case Many(ids) => ids
  }

  /** One `("seriesid", id)` query parameter per id, in order. */
  function LatestParams(s: SeriesIds): (r: seq<(string, string)>)
    ensures |r| == |IdList(s)|
    ensures forall i :: 0 <= i < |r| ==> r[i].0 == "seriesid" && r[i].1 == IdList(s)[i]
  {
    var ids := IdList(s);
    seq(|ids|, i requires 0 <= i < |ids| => ("seriesid", ids[i]))
  }

  /** A single id is the one-element list. */
  lemma LatestSingle(id: string)
    ensures LatestParams(Single(id)) == LatestParams(Many([id]))
    ensures LatestParams(Single(id)) == [("seriesid", id)]
  {
  }

  /** `{"survey": survey} if survey else None`: the empty name sends no parameters. */
  function PopularParams(survey: Option<string>): (r: Option<map<string, string>>)
    ensures r.Some? <==> survey.Some? && survey.value != ""
    ensures r.Some? ==> r.value == map["survey" := survey.value]
  {
    match survey
    case Some(name) => if name != "" then Some(map["survey" := name]) else None
    case None => None
  }

  /** `get_survey`: the surveys endpoint followed by `/` and the abbreviation. */
  function SurveyUrl(surveysEndpoint: string, surveyAbbr: string): (r: string)
    ensures |r| == |surveysEndpoint| + 1 + |surveyAbbr|
    ensures r[..|surveysEndpoint|] == surveysEndpoint && r[|surveysEndpoint|] == '/'
    ensures r[|surveysEndpoint| + 1..] == surveyAbbr
  {
    surveysEndpoint + "/" + surveyAbbr
  }

  /** The response of the surveys endpoint, as far as the client reads it. */
  datatype SurveyResults = SurveyResults(survey: Option<seq<Json>>)
  datatype SurveysResponse = SurveysResponse(status: string, results: Option<SurveyResults>)

  /** `list_surveys_list`: `Results.survey`, or no surveys when either key is missing. */
  function SurveysList(resp: SurveysResponse): (r: seq<Json>)
    ensures resp.results.Some? && resp.results.value.survey.Some? ==> r == resp.results.value.survey.value
    ensures resp.results.None? || resp.results.value.survey.None? ==> r == []
  {
    match resp.results
    case None => []
    case Some(results) => results.survey.GetOr([])
  }
}
