/**
 * The QCEW open-data helpers of bls_sdk/qcew.py: quarter codes, the
 * five-year window, the CSV table download's control flow over an abstract
 * HTTP oracle, area filtering, title joins and the per-name title cache.
 *
 * A CSV row is a map from column names to values; `None` stands for a
 * missing value, as `dict.get` returns it.
 */
module Qcew {
  import opened Wrappers
  import opened Text

  type Row = map<string, Option<string>>

  /** `row.get(key)`. */
  function Get(row: Row, key: string): (v: Option<string>)
    ensures key !in row ==> v.None?
    ensures key in row ==> v == row[key]
  {
    if key in row then row[key] else None
  }

  /** The exceptions the helpers raise. */
  datatype QcewError =
    | ValidationError(minYear: int, maxYear: int, year: int)   // year outside the hosted window
    | InvalidQuarter(quarter: string)                          // ValueError of `_normalize_quarter`
    | HttpError(status: int)                                   // `raise_for_status`

  // ---------------------------------------------------------------------
  // `_normalize_quarter`
  // ---------------------------------------------------------------------

  /** The quarter codes of the QCEW URLs. */
  const QuarterCodes: set<string> := {"a", "1", "2", "3", "4"}

  /** The spelling-to-code chain of `_normalize_quarter`, on text already stripped and lower-cased. */
  function QuarterCode(q: string): (r: Option<string>)
    ensures r.Some? ==> r.value in QuarterCodes
  {
    if q == "a" || q == "annual" then Some("a")
    else if q == "1" || q == "q1" then Some("1")
    else if q == "2" || q == "q2" then Some("2")
    else if q == "3" || q == "q3" then Some("3")
    else if q == "4" || q == "q4" then Some("4")
    else None
  }

  /** `_normalize_quarter`: strip, lower-case, then map the accepted spellings to a code. */
  function NormalizeQuarter(quarter: string): (r: Result<string, QcewError>)
    ensures r.Ok? ==> r.value in QuarterCodes
    ensures r.Err? ==> r.error == InvalidQuarter(quarter)
  {
    match QuarterCode(Lower(Strip(quarter)))
    case Some(code) => Ok(code)
    case None => Err(InvalidQuarter(quarter))
  }

  /** The accepted spellings and their codes, as one table. */
  const QuarterSpellings: map<string, string> := map[
    "a" := "a", "annual" := "a",
    "1" := "1", "q1" := "1",
    "2" := "2", "q2" := "2",
    "3" := "3", "q3" := "3",
    "4" := "4", "q4" := "4"
  ]

  // ---------------------------------------------------------------------
  // `_validate_year_window`, the current year passed in
  // ---------------------------------------------------------------------

  /** The hosted window is the current year and the four before it. */
  function ValidateYearWindow(year: int, currentYear: int): (r: Result<(), QcewError>)
    ensures r.Err? ==> r.error == ValidationError(currentYear - 4, currentYear, year)
  {
    var minYear := currentYear - 4;
    if year < minYear || year > currentYear then Err(ValidationError(minYear, currentYear, year))
    else Ok(())
  }

  // ---------------------------------------------------------------------
  // `get_table_csv` over an HTTP oracle
  // ---------------------------------------------------------------------

  /** What `requests.get` returns: the status and the rows its body decodes to. */
  datatype HttpResponse = HttpResponse(status: int, rows: seq<Row>)

  /** `f"{QCEW_API_BASE}/{year}/{q}/{level}.{ext}"`. */
  function TableUrl(base: string, year: int, q: string, level: string, gz: bool): string {
    base + "/" + IntToString(year) + "/" + q + "/" + level + (if gz then ".csv.gz" else ".csv")
  }

  /** `raise_for_status` followed by reading the rows of the body. */
  function RaiseForStatus(r: HttpResponse): (res: Result<seq<Row>, QcewError>)
    ensures res.Err? <==> 400 <= r.status < 600
    ensures res.Err? ==> res.error == HttpError(r.status)
    ensures res.Ok? ==> res.value == r.rows
  {
    if 400 <= r.status < 600 then Err(HttpError(r.status)) else Ok(r.rows)
  }

  /**
   * `get_table_csv`: validate, normalise, request; a 404 on the plain CSV
   * retries once with gz, a 404 on gz gives no rows, and any other 4xx or
   * 5xx status raises.
   */
  function TableCsv(base: string, year: int, quarter: string, level: string, gz: bool,
                    currentYear: int, get: string -> HttpResponse): Result<seq<Row>, QcewError>
    decreases if gz then 0 else 1
  {
    match ValidateYearWindow(year, currentYear)
    case Err(e) => Err(e)
    case Ok(_) =>
      match NormalizeQuarter(quarter)
      case Err(e) => Err(e)
      case Ok(q) =>
        var r := get(TableUrl(base, year, q, level, gz));
        if r.status == 404 && !gz then TableCsv(base, year, quarter, level, true, currentYear, get)
        else if r.status == 404 then Ok([])
        else RaiseForStatus(r)
  }

  /** The URLs `get_table_csv` requests, in order. */
  function TableRequests(base: string, year: int, quarter: string, level: string, gz: bool,
                         currentYear: int, get: string -> HttpResponse): (r: seq<string>)
    ensures |r| <= 2
    decreases if gz then 0 else 1
  {
    match ValidateYearWindow(year, currentYear)
    case Err(_) => []
    case Ok(_) =>
      match NormalizeQuarter(quarter)
      case Err(_) => []
      case Ok(q) =>
        var url := TableUrl(base, year, q, level, gz);
        if get(url).status == 404 && !gz then [url] + TableRequests(base, year, quarter, level, true, currentYear, get)
        else [url]
  }

  // ---------------------------------------------------------------------
  // `get_area_rows`
  // ---------------------------------------------------------------------

  /** The rows whose `area_fips` is the code, in their order. */
  function AreaRowsOf(rows: seq<Row>, areaCode: string): (r: seq<Row>)
    ensures |r| <= |rows|
    ensures forall i :: 0 <= i < |r| ==> Get(r[i], "area_fips") == Some(areaCode)
    decreases |rows|
  {
    if rows == [] then []
    else
      var last := rows[|rows| - 1];
      AreaRowsOf(rows[..|rows| - 1], areaCode) + (if Get(last, "area_fips") == Some(areaCode) then [last] else [])
  }

  /** `get_area_rows`: the area table of the quarter, filtered by area code. */
  function AreaRows(base: string, year: int, quarter: string, areaCode: string,
                    currentYear: int, get: string -> HttpResponse): Result<seq<Row>, QcewError>
  {
    match TableCsv(base, year, quarter, "area", false, currentYear, get)
    case Err(e) => Err(e)
    case Ok(rows) => Ok(AreaRowsOf(rows, areaCode))
  }

  // ---------------------------------------------------------------------
  // `join_titles`
  // ---------------------------------------------------------------------

  /** A lookup table built from title rows, code to title, later rows replacing earlier ones. */
  type TitleMap = map<Option<string>, Option<string>>

  /** The dict comprehension of `join_titles`: later rows overwrite earlier ones with the same code. */
  function BuildTitleMap(titles: seq<Row>, codeKey: string, titleKey: string): (m: TitleMap)
    ensures |titles| == 0 ==> m == map[]
    decreases |titles|
  {
    if titles == [] then map[]
    else
      var last := titles[|titles| - 1];
      BuildTitleMap(titles[..|titles| - 1], codeKey, titleKey)[Get(last, codeKey) := Get(last, titleKey)]
  }

  /** One lookup step: a non-empty lookup that knows the row's code sets that title column of the copy. */
  function AddTitle(copy: Row, row: Row, m: TitleMap, codeKey: string, titleKey: string): Row {
    if |m| > 0 && Get(row, codeKey) in m then copy[titleKey := m[Get(row, codeKey)]] else copy
  }

  /** The four lookups of one row, in the order of the source: area, industry, ownership, size. */
  function JoinedRow(row: Row, areaMap: TitleMap, indMap: TitleMap, ownMap: TitleMap, sizeMap: TitleMap): Row {
    var c1 := AddTitle(row, row, areaMap, "area_fips", "area_title");
    var c2 := AddTitle(c1, row, indMap, "industry_code", "industry_title");
    var c3 := AddTitle(c2, row, ownMap, "own_code", "own_title");
    AddTitle(c3, row, sizeMap, "size_code", "size_title")
  }

  /** The title columns `join_titles` can add. */
  const TitleColumns: set<string> := {"area_title", "industry_title", "own_title", "size_title"}

  /** Every row joined with the lookups built from the four title lists. */
  function JoinedTable(rows: seq<Row>, areas: seq<Row>, industries: seq<Row>, ownerships: seq<Row>, sizes: seq<Row>): seq<Row> {
    var areaMap := BuildTitleMap(areas, "area_fips", "area_title");
    var indMap := BuildTitleMap(industries, "industry_code", "industry_title");
    var ownMap := BuildTitleMap(ownerships, "own_code", "own_title");
    var sizeMap := BuildTitleMap(sizes, "size_code", "size_title");
    seq(|rows|, i requires 0 <= i < |rows| => JoinedRow(rows[i], areaMap, indMap, ownMap, sizeMap))
  }

  /** `join_titles`: one copy per row, in order, each with the titles found for its codes; a missing list adds nothing. */
  method JoinTitles(rows: seq<Row>, areas: Option<seq<Row>>, industries: Option<seq<Row>>,
                    ownerships: Option<seq<Row>>, sizes: Option<seq<Row>>) returns (out: seq<Row>)
    ensures out == JoinedTable(rows, areas.GetOr([]), industries.GetOr([]), ownerships.GetOr([]), sizes.GetOr([]))
  {
    var areaMap := BuildTitleMap(areas.GetOr([]), "area_fips", "area_title");
    var indMap := BuildTitleMap(industries.GetOr([]), "industry_code", "industry_title");
    var ownMap := BuildTitleMap(ownerships.GetOr([]), "own_code", "own_title");
    var sizeMap := BuildTitleMap(sizes.GetOr([]), "size_code", "size_title");
    out := [];
    for i := 0 to |rows|
      invariant |out| == i
      invariant forall k :: 0 <= k < i ==> out[k] == JoinedRow(rows[k], areaMap, indMap, ownMap, sizeMap)
    {
      var copy := CopyWithTitles(rows[i], areaMap, indMap, ownMap, sizeMap);
      out := out + [copy];
    }
    assert out == JoinedTable(rows, areas.GetOr([]), industries.GetOr([]), ownerships.GetOr([]), sizes.GetOr([]));
  }

  /** The loop body of `join_titles`: a copy of the row and the four lookup steps. */
  method CopyWithTitles(r: Row, areaMap: TitleMap, indMap: TitleMap, ownMap: TitleMap, sizeMap: TitleMap)
    returns (copy: Row)
    ensures copy == JoinedRow(r, areaMap, indMap, ownMap, sizeMap)
  {
    copy := r;
    if |areaMap| > 0 {
      var code := Get(r, "area_fips");
      if code in areaMap {
        copy := copy["area_title" := areaMap[code]];
      }
    }
    assert copy == AddTitle(r, r, areaMap, "area_fips", "area_title");
    if |indMap| > 0 {
      var code := Get(r, "industry_code");
      if code in indMap {
        copy := copy["industry_title" := indMap[code]];
      }
    }
    ghost var c1 := AddTitle(r, r, areaMap, "area_fips", "area_title");
    assert copy == AddTitle(c1, r, indMap, "industry_code", "industry_title");
    if |ownMap| > 0 {
      var code := Get(r, "own_code");
      if code in ownMap {
        copy := copy["own_title" := ownMap[code]];
      }
    }
    ghost var c2 := AddTitle(c1, r, indMap, "industry_code", "industry_title");
    assert copy == AddTitle(c2, r, ownMap, "own_code", "own_title");
    if |sizeMap| > 0 {
      var code := Get(r, "size_code");
      if code in sizeMap {
        copy := copy["size_title" := sizeMap[code]];
      }
    }
  }

  // ---------------------------------------------------------------------
  // `_fetch_title_csv` over an HTTP oracle
  // ---------------------------------------------------------------------

  /** `f"{QCEW_API_BASE}/{name}.csv"`, or with `.csv.gz`. */
  function TitleUrl(base: string, name: string, gz: bool): string {
    base + "/" + name + (if gz then ".csv.gz" else ".csv")
  }

  /**
   * `_fetch_title_csv`: the plain file, then the gz file after a 404; the
   * first answer that is not a 404 is checked and read, and two 404s give
   * no rows.
   */
  function TitleCsv(base: string, name: string, get: string -> HttpResponse): Result<seq<Row>, QcewError> {
    var plain := get(TitleUrl(base, name, false));
    if plain.status != 404 then RaiseForStatus(plain)
    else
      var gz := get(TitleUrl(base, name, true));
      if gz.status != 404 then RaiseForStatus(gz) else Ok([])
  }

  // ---------------------------------------------------------------------
  // `_get_titles_cached`
  // ---------------------------------------------------------------------

  /** The names `_get_titles_cached` has a fetcher for. */
  const TitleNames: set<string> := {"area_titles", "industry_titles", "ownership_titles", "size_titles"}

  /** The four lookups of `get_table_with_titles`, in its order. */
  const TitleOrder: seq<string> := ["area_titles", "industry_titles", "ownership_titles", "size_titles"]

  /**
   * One cached lookup on a cache value: what it returns or raises, and the
   * cache afterwards. A download that raises stores nothing.
   */
  function CachedTitles(cache: map<string, seq<Row>>, name: string, base: string, get: string -> HttpResponse):
    (Result<seq<Row>, QcewError>, map<string, seq<Row>>)
  {
    if name in cache then (Ok(cache[name]), cache)
    else if name !in TitleNames then (Ok([]), cache)
    else
      match TitleCsv(base, name, get)
      case Ok(rows) => (Ok(rows), cache[name := rows])
      case Err(e) => (Err(e), cache)
  }

  /** The lookups of `names` one after the other, stopping at the first that raises. */
  function CachedTitlesAll(cache: map<string, seq<Row>>, names: seq<string>, base: string, get: string -> HttpResponse):
    (r: (Result<seq<seq<Row>>, QcewError>, map<string, seq<Row>>))
    ensures r.0.Ok? ==> |r.0.value| == |names|
    decreases |names|
  {
    if names == [] then (Ok([]), cache)
    else
      var (first, c1) := CachedTitles(cache, names[0], base, get);
      match first
      case Err(e) => (Err(e), c1)
      case Ok(rows) =>
        var (rest, c2) := CachedTitlesAll(c1, names[1..], base, get);
        match rest
        case Err(e) => (Err(e), c2)
        case Ok(more) => (Ok([rows] + more), c2)
  }

  /** One unfolding of `CachedTitlesAll` after a successful first lookup. */
  lemma AllTitlesStep(c0: map<string, seq<Row>>, c1: map<string, seq<Row>>, names: seq<string>, rows: seq<Row>,
                      rest: Result<seq<seq<Row>>, QcewError>, c2: map<string, seq<Row>>,
                      base: string, get: string -> HttpResponse)
    requires names != []
    requires CachedTitles(c0, names[0], base, get) == (Ok(rows), c1)
    requires CachedTitlesAll(c1, names[1..], base, get) == (rest, c2)
    ensures CachedTitlesAll(c0, names, base, get) ==
      (match rest case Err(e) => Err(e) case Ok(more) => Ok([rows] + more), c2)
  {
  }

  /** One unfolding of `CachedTitlesAll` when the first lookup raises. */
  lemma AllTitlesFail(c0: map<string, seq<Row>>, names: seq<string>, e: QcewError, c1: map<string, seq<Row>>,
                      base: string, get: string -> HttpResponse)
    requires names != []
    requires CachedTitles(c0, names[0], base, get) == (Err(e), c1)
    ensures CachedTitlesAll(c0, names, base, get) == (Err(e), c1)
  {
  }

  /** One title download: the name and what it returned or raised. */
  datatype TitleFetch = TitleFetch(name: string, outcome: Result<seq<Row>, QcewError>)

  /** The client with its title cache; `requests.get` is the oracle passed to each call. */
  class QcewClient {
    var titlesCache: map<string, seq<Row>>
    /** The title downloads so far, oldest first. */
    ghost var fetches: seq<TitleFetch>
    /** `QCEW_API_BASE`. */
    const base: string

    /**
     * Only known names are cached, each holding what a download returned;
     * a successful download is the last one of its name, so a cached name
     * is never downloaded again.
     */
    ghost predicate Valid()
      reads this
    {
      titlesCache.Keys <= TitleNames &&
      (forall n :: n in titlesCache ==> TitleFetch(n, Ok(titlesCache[n])) in fetches) &&
      (forall i :: 0 <= i < |fetches| && fetches[i].outcome.Ok? ==> fetches[i].name in titlesCache) &&
      (forall i, j :: 0 <= i < j < |fetches| && fetches[i].name == fetches[j].name ==> fetches[i].outcome.Err?)
    }

    constructor(base: string)
      ensures Valid()
      ensures titlesCache == map[] && fetches == [] && this.base == base
    {
      titlesCache := map[];
      fetches := [];
      this.base := base;
    }

    /** `_fetch_title_csv`: the loop over the two suffixes. */
    method FetchTitleCsv(name: string, get: string -> HttpResponse) returns (r: Result<seq<Row>, QcewError>)
      ensures r == TitleCsv(base, name, get)
    {
      for i := 0 to 2
        invariant i >= 1 ==> get(TitleUrl(base, name, false)).status == 404
        invariant i == 2 ==> get(TitleUrl(base, name, true)).status == 404
      {
        var resp := get(TitleUrl(base, name, i == 1));
        if resp.status != 404 {
          return RaiseForStatus(resp);
        }
      }
      return Ok([]);
    }

    /** `_get_titles_cached`; a download that raises leaves the cache as it was. */
    method GetTitlesCached(name: string, get: string -> HttpResponse) returns (rows: Result<seq<Row>, QcewError>)
      requires Valid()
      modifies this
      ensures Valid()
      ensures (rows, titlesCache) == CachedTitles(old(titlesCache), name, base, get)
      ensures fetches == if name in old(titlesCache) || name !in TitleNames then old(fetches)
        else old(fetches) + [TitleFetch(name, rows)]
    {
      if name in titlesCache {
        return Ok(titlesCache[name]);
      }
      if name !in TitleNames {
        return Ok([]);
      }
      rows := FetchTitleCsv(name, get);
      fetches := fetches + [TitleFetch(name, rows)];
      if rows.Ok? {
        titlesCache := titlesCache[name := rows.value];
      }
    }

    /** The four `_get_titles_cached` calls of `get_table_with_titles`; the first that raises ends it. */
    method GetAllTitles(get: string -> HttpResponse) returns (titles: Result<seq<seq<Row>>, QcewError>)
      requires Valid()
      modifies this
      ensures Valid()
      ensures (titles, titlesCache) == CachedTitlesAll(old(titlesCache), TitleOrder, base, get)
    {
      assert TitleOrder[1..][0] == "industry_titles" && TitleOrder[2..][0] == "ownership_titles";
      assert TitleOrder[3..][0] == "size_titles" && TitleOrder[3..][1..] == [];
      assert TitleOrder[1..][1..] == TitleOrder[2..] && TitleOrder[2..][1..] == TitleOrder[3..];
      ghost var c0 := titlesCache;
      var areas := GetTitlesCached("area_titles", get);
      ghost var c1 := titlesCache;
      if areas.Err? {
        AllTitlesFail(c0, TitleOrder, areas.error, c1, base, get);
        return Err(areas.error);
      }
      var inds := GetTitlesCached("industry_titles", get);
      ghost var c2 := titlesCache;
      if inds.Err? {
        AllTitlesFail(c1, TitleOrder[1..], inds.error, c2, base, get);
        AllTitlesStep(c0, c1, TitleOrder, areas.value, Err(inds.error), c2, base, get);
        return Err(inds.error);
      }
      var owns := GetTitlesCached("ownership_titles", get);
      ghost var c3 := titlesCache;
      if owns.Err? {
        AllTitlesFail(c2, TitleOrder[2..], owns.error, c3, base, get);
        AllTitlesStep(c1, c2, TitleOrder[1..], inds.value, Err(owns.error), c3, base, get);
        AllTitlesStep(c0, c1, TitleOrder, areas.value, Err(owns.error), c3, base, get);
        return Err(owns.error);
      }
      var sizes := GetTitlesCached("size_titles", get);
      ghost var c4 := titlesCache;
      if sizes.Err? {
        AllTitlesFail(c3, TitleOrder[3..], sizes.error, c4, base, get);
        AllTitlesStep(c2, c3, TitleOrder[2..], owns.value, Err(sizes.error), c4, base, get);
        AllTitlesStep(c1, c2, TitleOrder[1..], inds.value, Err(sizes.error), c4, base, get);
        AllTitlesStep(c0, c1, TitleOrder, areas.value, Err(sizes.error), c4, base, get);
        return Err(sizes.error);
      }
      ghost var r3: seq<seq<Row>> := [sizes.value] + [];
      ghost var r2 := [owns.value] + r3;
      ghost var r1 := [inds.value] + r2;
      AllTitlesStep(c3, c4, TitleOrder[3..], sizes.value, Ok([]), c4, base, get);
      AllTitlesStep(c2, c3, TitleOrder[2..], owns.value, Ok(r3), c4, base, get);
      AllTitlesStep(c1, c2, TitleOrder[1..], inds.value, Ok(r2), c4, base, get);
      AllTitlesStep(c0, c1, TitleOrder, areas.value, Ok(r1), c4, base, get);
      titles := Ok([areas.value] + ([inds.value] + ([owns.value] + ([sizes.value] + []))));
    }

    /** `get_table_with_titles`: the table, then the four cached title lists, then the join. */
    method GetTableWithTitles(year: int, quarter: string, level: string, currentYear: int,
                              get: string -> HttpResponse)
      returns (result: Result<seq<Row>, QcewError>)
      requires Valid()
      modifies this
      ensures Valid()
      ensures var table := TableCsv(base, year, quarter, level, false, currentYear, get);
        table.Err? ==> result == Err(table.error) && titlesCache == old(titlesCache) && fetches == old(fetches)
      ensures var table := TableCsv(base, year, quarter, level, false, currentYear, get);
        var (titles, after) := CachedTitlesAll(old(titlesCache), TitleOrder, base, get);
        table.Ok? ==> (titlesCache == after &&
          result == match titles
            case Err(e) => Err(e)
            case Ok(ts) => Ok(JoinedTable(table.value, ts[0], ts[1], ts[2], ts[3])))
    {
      var table := TableCsv(base, year, quarter, level, false, currentYear, get);
      if table.Err? {
        return Err(table.error);
      }
      var titles := GetAllTitles(get);
      if titles.Err? {
        return Err(titles.error);
      }
      var ts := titles.value;
      var out := JoinTitles(table.value, Some(ts[0]), Some(ts[1]), Some(ts[2]), Some(ts[3]));
      result := Ok(out);
    }
  }
}
