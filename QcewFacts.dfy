/**
 * Properties of the QCEW helpers: quarter codes, the year window, the
 * request order of the table download, area filtering, title lookups and
 * joins, and the title cache.
 */
module QcewFacts {
  import opened Wrappers
  import opened Text
  import opened Qcew

  // ---------------------------------------------------------------------
  // Quarter codes and the year window
  // ---------------------------------------------------------------------

  /** The spelling chain of `_normalize_quarter` is a lookup in one table. */
  lemma QuarterCodeTable(q: string)
    ensures QuarterCode(q) == if q in QuarterSpellings then Some(QuarterSpellings[q]) else None
  {
  }

  /** The quarter is accepted exactly when its stripped, lower-cased text is one of the spellings. */
  lemma NormalizeQuarterTable(quarter: string)
    ensures var q := Lower(Strip(quarter));
      NormalizeQuarter(quarter) == if q in QuarterSpellings then Ok(QuarterSpellings[q]) else Err(InvalidQuarter(quarter))
  {
    QuarterCodeTable(Lower(Strip(quarter)));
  }

  /** A one-character text that is not whitespace strips to itself. */
  lemma StripSingle(c: char)
    requires !IsSpace(c)
    ensures Strip([c]) == [c]
  {
    assert TrimStart([c]) == [c];
    assert TrimEnd([c]) == [c];
  }

  /** A one-character code is its own code. */
  lemma QuarterCodeChar(c: char)
    requires c == 'a' || c == '1' || c == '2' || c == '3' || c == '4'
    ensures QuarterCode([c]) == Some([c])
  {
    if c == 'a' {
      assert [c] == "a";
    } else if c == '1' {
      assert [c] == "1";
    } else if c == '2' {
      assert [c] == "2";
    } else if c == '3' {
      assert [c] == "3";
    } else {
      assert [c] == "4";
    }
  }

  /** A one-character code normalises to itself. */
  lemma NormalizeCodeChar(c: char)
    requires c == 'a' || c == '1' || c == '2' || c == '3' || c == '4'
    ensures NormalizeQuarter([c]) == Ok([c])
  {
    LowerStripCode(c);
    QuarterCodeChar(c);
    NormalizeFixedPoint([c]);
  }

  /** A code character survives stripping and lower-casing. */
  lemma LowerStripCode(c: char)
    requires c == 'a' || c == '1' || c == '2' || c == '3' || c == '4'
    ensures Lower(Strip([c])) == [c]
  {
    assert LowerChar(c) == c;
    assert Lower([c]) == [c];
    StripSingle(c);
  }

  /** Text that stripping and lower-casing leave alone and that is its own code normalises to itself. */
  lemma NormalizeFixedPoint(quarter: string)
    requires Lower(Strip(quarter)) == quarter && QuarterCode(quarter) == Some(quarter)
    ensures NormalizeQuarter(quarter) == Ok(quarter)
  {
  }

  /** The codes normalise to themselves. */
  lemma NormalizeQuarterIdempotent(code: string)
    requires code in QuarterCodes
    ensures NormalizeQuarter(code) == Ok(code)
  {
    var c := if code == "a" then 'a' else if code == "1" then '1' else if code == "2" then '2'
      else if code == "3" then '3' else '4';
    assert code == [c];
    NormalizeCodeChar(c);
  }

  /** Normalising a normalised quarter changes nothing. */
  lemma NormalizeQuarterStable(quarter: string)
    requires NormalizeQuarter(quarter).Ok?
    ensures NormalizeQuarter(NormalizeQuarter(quarter).value) == NormalizeQuarter(quarter)
  {
    NormalizeQuarterIdempotent(NormalizeQuarter(quarter).value);
  }

  /** The window accepts exactly the current year and the four before it. */
  lemma YearWindowIff(year: int, currentYear: int)
    ensures ValidateYearWindow(year, currentYear).Ok? <==> currentYear - 4 <= year <= currentYear
  {
  }

  // ---------------------------------------------------------------------
  // The table download
  // ---------------------------------------------------------------------

  /** A year outside the window raises before any request. */
  lemma TableCsvChecksYearFirst(base: string, year: int, quarter: string, level: string, gz: bool,
                                currentYear: int, get: string -> HttpResponse)
    requires ValidateYearWindow(year, currentYear).Err?
    ensures TableCsv(base, year, quarter, level, gz, currentYear, get) ==
      Err(ValidationError(currentYear - 4, currentYear, year))
    ensures TableRequests(base, year, quarter, level, gz, currentYear, get) == []
  {
  }

  /** An unknown quarter spelling raises before any request. */
  lemma TableCsvChecksQuarterFirst(base: string, year: int, quarter: string, level: string, gz: bool,
                                   currentYear: int, get: string -> HttpResponse)
    requires ValidateYearWindow(year, currentYear).Ok? && NormalizeQuarter(quarter).Err?
    ensures TableCsv(base, year, quarter, level, gz, currentYear, get) == Err(InvalidQuarter(quarter))
    ensures TableRequests(base, year, quarter, level, gz, currentYear, get) == []
  {
  }

  /** A 404 on the plain CSV retries the gz file; a 404 there too gives no rows. */
  lemma TableCsvGzFallback(base: string, year: int, quarter: string, level: string,
                           currentYear: int, get: string -> HttpResponse)
    requires ValidateYearWindow(year, currentYear).Ok? && NormalizeQuarter(quarter).Ok?
    requires get(TableUrl(base, year, NormalizeQuarter(quarter).value, level, false)).status == 404
    ensures TableCsv(base, year, quarter, level, false, currentYear, get) ==
      TableCsv(base, year, quarter, level, true, currentYear, get)
    ensures var q := NormalizeQuarter(quarter).value;
      TableRequests(base, year, quarter, level, false, currentYear, get) ==
      [TableUrl(base, year, q, level, false), TableUrl(base, year, q, level, true)]
    ensures get(TableUrl(base, year, NormalizeQuarter(quarter).value, level, true)).status == 404 ==>
      TableCsv(base, year, quarter, level, false, currentYear, get) == Ok([])
  {
  }

  /**
   * The whole outcome of a plain-CSV call: a bad year or quarter is reported
   * before anything is requested; otherwise the plain answer decides unless
   * it is a 404, in which case the gz answer does; a deciding 4xx or 5xx
   * status raises `HttpError` with that status, any other gives its rows,
   * and two 404s give no rows.
   */
  lemma TableCsvOutcome(base: string, year: int, quarter: string, level: string,
                        currentYear: int, get: string -> HttpResponse)
    ensures ValidateYearWindow(year, currentYear).Err? ==>
      TableCsv(base, year, quarter, level, false, currentYear, get) ==
      Err(ValidateYearWindow(year, currentYear).error)
    ensures ValidateYearWindow(year, currentYear).Ok? && NormalizeQuarter(quarter).Err? ==>
      TableCsv(base, year, quarter, level, false, currentYear, get) == Err(InvalidQuarter(quarter))
    ensures ValidateYearWindow(year, currentYear).Ok? && NormalizeQuarter(quarter).Ok? ==>
      var q := NormalizeQuarter(quarter).value;
      var plain := get(TableUrl(base, year, q, level, false));
      var gz := get(TableUrl(base, year, q, level, true));
      var decisive := if plain.status != 404 then plain else gz;
      var res := TableCsv(base, year, quarter, level, false, currentYear, get);
      (res.Err? <==> decisive.status != 404 && 400 <= decisive.status < 600) &&
      (res.Err? ==> res.error == HttpError(decisive.status)) &&
      (res.Ok? ==> res.value == if decisive.status == 404 then [] else decisive.rows)
  {
  }

  /** The outcome depends only on the responses to the URLs requested. */
  lemma TableCsvUsesOnlyRequests(base: string, year: int, quarter: string, level: string, gz: bool,
                                 currentYear: int, get1: string -> HttpResponse, get2: string -> HttpResponse)
    requires forall u :: u in TableRequests(base, year, quarter, level, gz, currentYear, get1) ==> get1(u) == get2(u)
    ensures TableCsv(base, year, quarter, level, gz, currentYear, get1) == TableCsv(base, year, quarter, level, gz, currentYear, get2)
    ensures TableRequests(base, year, quarter, level, gz, currentYear, get1) ==
      TableRequests(base, year, quarter, level, gz, currentYear, get2)
    decreases if gz then 0 else 1
  {
    if ValidateYearWindow(year, currentYear).Ok? && NormalizeQuarter(quarter).Ok? {
      var q := NormalizeQuarter(quarter).value;
      var url := TableUrl(base, year, q, level, gz);
      assert url in TableRequests(base, year, quarter, level, gz, currentYear, get1);
      if get1(url).status == 404 && !gz {
        TableCsvUsesOnlyRequests(base, year, quarter, level, true, currentYear, get1, get2);
      }
    }
  }

  // ---------------------------------------------------------------------
  // Area rows
  // ---------------------------------------------------------------------

  /** Filtering two runs of rows is filtering each. */
  lemma {:induction false} AreaRowsOfAppend(a: seq<Row>, b: seq<Row>, areaCode: string)
    ensures AreaRowsOf(a + b, areaCode) == AreaRowsOf(a, areaCode) + AreaRowsOf(b, areaCode)
    decreases |b|
  {
    if b == [] {
      assert a + b == a;
    } else {
      var b' := b[..|b| - 1];
      assert (a + b)[..|a + b| - 1] == a + b';
      assert (a + b)[|a + b| - 1] == b[|b| - 1];
      AreaRowsOfAppend(a, b', areaCode);
    }
  }

  /** A row is kept exactly when it is one of the rows and has the area code. */
  lemma {:induction false} AreaRowsOfMember(rows: seq<Row>, areaCode: string, r: Row)
    ensures r in AreaRowsOf(rows, areaCode) <==> r in rows && Get(r, "area_fips") == Some(areaCode)
    decreases |rows|
  {
    if rows != [] {
      var init := rows[..|rows| - 1];
      AreaRowsOfMember(init, areaCode, r);
      assert rows == init + [rows[|rows| - 1]];
    }
  }

  /** Rows that all have the code are all kept, in order. */
  lemma {:induction false} AreaRowsOfAll(rows: seq<Row>, areaCode: string)
    requires forall i :: 0 <= i < |rows| ==> Get(rows[i], "area_fips") == Some(areaCode)
    ensures AreaRowsOf(rows, areaCode) == rows
    decreases |rows|
  {
    if rows != [] {
      AreaRowsOfAll(rows[..|rows| - 1], areaCode);
    }
  }

  /** `get_area_rows` raises exactly when the table download does. */
  lemma AreaRowsErrors(base: string, year: int, quarter: string, areaCode: string,
                       currentYear: int, get: string -> HttpResponse)
    ensures AreaRows(base, year, quarter, areaCode, currentYear, get).Err? <==>
      TableCsv(base, year, quarter, "area", false, currentYear, get).Err?
    ensures AreaRows(base, year, quarter, areaCode, currentYear, get).Ok? ==>
      AreaRows(base, year, quarter, areaCode, currentYear, get).value ==
      AreaRowsOf(TableCsv(base, year, quarter, "area", false, currentYear, get).value, areaCode)
  {
  }

  // ---------------------------------------------------------------------
  // Title lookups and joins
  // ---------------------------------------------------------------------

  /** The lookup's keys are exactly the codes of the title rows. */
  lemma {:induction false} TitleMapKeys(titles: seq<Row>, codeKey: string, titleKey: string)
    ensures forall c :: c in BuildTitleMap(titles, codeKey, titleKey) <==>
      exists i :: 0 <= i < |titles| && Get(titles[i], codeKey) == c
    decreases |titles|
  {
    if titles != [] {
      var init := titles[..|titles| - 1];
      TitleMapKeys(init, codeKey, titleKey);
      forall c ensures c in BuildTitleMap(titles, codeKey, titleKey) <==>
        exists i :: 0 <= i < |titles| && Get(titles[i], codeKey) == c
      {
        if c in BuildTitleMap(init, codeKey, titleKey) {
          var i :| 0 <= i < |init| && Get(init[i], codeKey) == c;
          assert titles[i] == init[i];
        }
        if exists i :: 0 <= i < |titles| && Get(titles[i], codeKey) == c {
          var i :| 0 <= i < |titles| && Get(titles[i], codeKey) == c;
          if i < |init| {
            assert init[i] == titles[i];
          }
        }
      }
    }
  }

  /** A code's title is the one of the last title row with that code. */
  lemma {:induction false} TitleMapLastWins(titles: seq<Row>, codeKey: string, titleKey: string, j: nat)
    requires j < |titles|
    requires forall k :: j < k < |titles| ==> Get(titles[k], codeKey) != Get(titles[j], codeKey)
    ensures Get(titles[j], codeKey) in BuildTitleMap(titles, codeKey, titleKey)
    ensures BuildTitleMap(titles, codeKey, titleKey)[Get(titles[j], codeKey)] == Get(titles[j], titleKey)
    decreases |titles|
  {
    if j < |titles| - 1 {
      var init := titles[..|titles| - 1];
      assert init[j] == titles[j];
      TitleMapLastWins(init, codeKey, titleKey, j);
    }
  }

  /** A lookup is non-empty exactly when there are title rows. */
  lemma TitleMapNonEmpty(titles: seq<Row>, codeKey: string, titleKey: string)
    ensures |BuildTitleMap(titles, codeKey, titleKey)| > 0 <==> titles != []
  {
    if titles != [] {
      var last := titles[|titles| - 1];
      assert Get(last, codeKey) in BuildTitleMap(titles, codeKey, titleKey);
    }
  }

  /** A joined row keeps every input key, and every non-title column keeps its value. */
  lemma JoinedRowKeepsColumns(row: Row, areaMap: TitleMap, indMap: TitleMap, ownMap: TitleMap, sizeMap: TitleMap)
    ensures var out := JoinedRow(row, areaMap, indMap, ownMap, sizeMap);
      row.Keys <= out.Keys && out.Keys <= row.Keys + TitleColumns &&
      forall k :: k in row && k !in TitleColumns ==> out[k] == row[k]
  {
  }

  /** The title a lookup step leaves in its column. */
  function TitleAfter(row: Row, m: TitleMap, codeKey: string, titleKey: string): Option<string> {
    if |m| > 0 && Get(row, codeKey) in m then m[Get(row, codeKey)] else Get(row, titleKey)
  }

  /** Each title column holds its lookup's title when the lookup is non-empty and knows the row's code. */
  lemma JoinedRowTitles(row: Row, areaMap: TitleMap, indMap: TitleMap, ownMap: TitleMap, sizeMap: TitleMap)
    ensures var out := JoinedRow(row, areaMap, indMap, ownMap, sizeMap);
      Get(out, "area_title") == TitleAfter(row, areaMap, "area_fips", "area_title") &&
      Get(out, "industry_title") == TitleAfter(row, indMap, "industry_code", "industry_title") &&
      Get(out, "own_title") == TitleAfter(row, ownMap, "own_code", "own_title") &&
      Get(out, "size_title") == TitleAfter(row, sizeMap, "size_code", "size_title")
  {
    var c1 := AddTitle(row, row, areaMap, "area_fips", "area_title");
    var c2 := AddTitle(c1, row, indMap, "industry_code", "industry_title");
    var c3 := AddTitle(c2, row, ownMap, "own_code", "own_title");
    AddTitleSets(row, row, areaMap, "area_fips", "area_title");
    AddTitleKeeps(c1, row, indMap, "industry_code", "industry_title", "area_title");
    AddTitleKeeps(c2, row, ownMap, "own_code", "own_title", "area_title");
    AddTitleKeeps(c3, row, sizeMap, "size_code", "size_title", "area_title");
    AddTitleKeeps(row, row, areaMap, "area_fips", "area_title", "industry_title");
    AddTitleSets(c1, row, indMap, "industry_code", "industry_title");
    AddTitleKeeps(c2, row, ownMap, "own_code", "own_title", "industry_title");
    AddTitleKeeps(c3, row, sizeMap, "size_code", "size_title", "industry_title");
    AddTitleKeeps(row, row, areaMap, "area_fips", "area_title", "own_title");
    AddTitleKeeps(c1, row, indMap, "industry_code", "industry_title", "own_title");
    AddTitleSets(c2, row, ownMap, "own_code", "own_title");
    AddTitleKeeps(c3, row, sizeMap, "size_code", "size_title", "own_title");
    AddTitleKeeps(row, row, areaMap, "area_fips", "area_title", "size_title");
    AddTitleKeeps(c1, row, indMap, "industry_code", "industry_title", "size_title");
    AddTitleKeeps(c2, row, ownMap, "own_code", "own_title", "size_title");
    AddTitleSets(c3, row, sizeMap, "size_code", "size_title");
  }

  /** A lookup step leaves every other column as it was. */
  lemma AddTitleKeeps(copy: Row, row: Row, m: TitleMap, codeKey: string, titleKey: string, k: string)
    requires k != titleKey
    ensures Get(AddTitle(copy, row, m, codeKey, titleKey), k) == Get(copy, k)
  {
  }

  /** A lookup step on a column the earlier steps kept as in the row. */
  lemma AddTitleSets(copy: Row, row: Row, m: TitleMap, codeKey: string, titleKey: string)
    requires Get(copy, titleKey) == Get(row, titleKey)
    ensures Get(AddTitle(copy, row, m, codeKey, titleKey), titleKey) == TitleAfter(row, m, codeKey, titleKey)
  {
  }

  /** One title row per table whose code matches the row's gives each column that row's title. */
  lemma JoinSingleTitleRows(row: Row, area: Row, industry: Row, ownership: Row, size: Row)
    requires Get(area, "area_fips") == Get(row, "area_fips")
    requires Get(industry, "industry_code") == Get(row, "industry_code")
    requires Get(ownership, "own_code") == Get(row, "own_code")
    requires Get(size, "size_code") == Get(row, "size_code")
    ensures var out := JoinedRow(row, BuildTitleMap([area], "area_fips", "area_title"),
      BuildTitleMap([industry], "industry_code", "industry_title"),
      BuildTitleMap([ownership], "own_code", "own_title"),
      BuildTitleMap([size], "size_code", "size_title"));
      Get(out, "area_title") == Get(area, "area_title") &&
      Get(out, "industry_title") == Get(industry, "industry_title") &&
      Get(out, "own_title") == Get(ownership, "own_title") &&
      Get(out, "size_title") == Get(size, "size_title")
  {
    var am := BuildTitleMap([area], "area_fips", "area_title");
    var im := BuildTitleMap([industry], "industry_code", "industry_title");
    var om := BuildTitleMap([ownership], "own_code", "own_title");
    var sm := BuildTitleMap([size], "size_code", "size_title");
    assert am == map[Get(area, "area_fips") := Get(area, "area_title")];
    assert im == map[Get(industry, "industry_code") := Get(industry, "industry_title")];
    assert om == map[Get(ownership, "own_code") := Get(ownership, "own_title")];
    assert sm == map[Get(size, "size_code") := Get(size, "size_title")];
    JoinedRowTitles(row, am, im, om, sm);
  }

  /** Without title rows, a joined row is the input row. */
  lemma JoinWithoutTitles(row: Row)
    ensures JoinedRow(row, map[], map[], map[], map[]) == row
  {
  }

  // ---------------------------------------------------------------------
  // The title cache
  // ---------------------------------------------------------------------

  /** After a lookup that returned, a second lookup returns the same rows and leaves the cache alone, whatever the server answers. */
  lemma CachedTitlesRepeat(cache: map<string, seq<Row>>, name: string, base: string,
                           get: string -> HttpResponse, other: string -> HttpResponse)
    ensures var (rows, after) := CachedTitles(cache, name, base, get);
      rows.Ok? ==> CachedTitles(after, name, base, other) == (rows, after)
  {
  }

  /** An unknown, uncached name gives no rows, downloads nothing and leaves the cache unchanged. */
  lemma CachedTitlesUnknown(cache: map<string, seq<Row>>, name: string, base: string, get: string -> HttpResponse)
    requires name !in cache && name !in TitleNames
    ensures CachedTitles(cache, name, base, get) == (Ok([]), cache)
  {
  }

  /** An uncached known name is looked up by downloading it; the rows are stored only when the download returns. */
  lemma CachedTitlesDownload(cache: map<string, seq<Row>>, name: string, base: string, get: string -> HttpResponse)
    requires name !in cache && name in TitleNames
    ensures CachedTitles(cache, name, base, get).0 == TitleCsv(base, name, get)
    ensures TitleCsv(base, name, get).Ok? ==>
      CachedTitles(cache, name, base, get).1 == cache[name := TitleCsv(base, name, get).value]
    ensures TitleCsv(base, name, get).Err? ==> CachedTitles(cache, name, base, get).1 == cache
  {
  }

  /**
   * A lookup that raises leaves the name uncached, so the next lookup
   * downloads it again and fares as if the first had not happened.
   */
  lemma CachedTitlesFailureRetries(cache: map<string, seq<Row>>, name: string, base: string,
                                   get: string -> HttpResponse, other: string -> HttpResponse)
    ensures var (rows, after) := CachedTitles(cache, name, base, get);
      rows.Err? ==> (name !in after && after == cache && rows == TitleCsv(base, name, get) &&
        CachedTitles(after, name, base, other) == CachedTitles(cache, name, base, other))
  {
  }

  /** A lookup only adds the name it was asked for. */
  lemma CachedTitlesGrows(cache: map<string, seq<Row>>, name: string, base: string, get: string -> HttpResponse)
    ensures var after := CachedTitles(cache, name, base, get).1;
      cache.Keys <= after.Keys && after.Keys <= cache.Keys + {name} &&
      forall n :: n in cache ==> after[n] == cache[n]
  {
  }

  // ---------------------------------------------------------------------
  // The four lookups of `get_table_with_titles`
  // ---------------------------------------------------------------------

  /** The lookups never drop or change a cached entry, and add only names looked up. */
  lemma {:induction false} CachedTitlesAllKeeps(cache: map<string, seq<Row>>, names: seq<string>, base: string,
                                                get: string -> HttpResponse)
    ensures var after := CachedTitlesAll(cache, names, base, get).1;
      (forall n :: n in cache ==> n in after && after[n] == cache[n]) &&
      (forall n :: n in after ==> n in cache || n in names)
    decreases |names|
  {
    if names != [] {
      var c1 := CachedTitles(cache, names[0], base, get).1;
      CachedTitlesGrows(cache, names[0], base, get);
      CachedTitlesAllKeeps(c1, names[1..], base, get);
    }
  }

  /**
   * When all lookups return, the k-th list is the cache entry of the k-th
   * name, and every name is cached.
   */
  lemma {:induction false} CachedTitlesAllOk(cache: map<string, seq<Row>>, names: seq<string>, base: string,
                                             get: string -> HttpResponse)
    requires forall k :: 0 <= k < |names| ==> names[k] in TitleNames
    ensures var (titles, after) := CachedTitlesAll(cache, names, base, get);
      titles.Ok? ==> forall k :: 0 <= k < |names| ==> names[k] in after && titles.value[k] == after[names[k]]
    decreases |names|
  {
    if names != [] {
      var (first, c1) := CachedTitles(cache, names[0], base, get);
      if first.Ok? {
        CachedTitlesAllOk(c1, names[1..], base, get);
        CachedTitlesAllKeeps(c1, names[1..], base, get);
        var (titles, after) := CachedTitlesAll(cache, names, base, get);
        if titles.Ok? {
          forall k | 0 <= k < |names|
            ensures names[k] in after && titles.value[k] == after[names[k]]
          {
            if k > 0 {
              assert names[1..][k - 1] == names[k];
            }
          }
        }
      }
    }
  }

  /**
   * The lookups return exactly when every name is cached beforehand, is
   * unknown, or downloads without raising.
   */
  lemma {:induction false} CachedTitlesAllOkIff(cache: map<string, seq<Row>>, names: seq<string>, base: string,
                                                get: string -> HttpResponse)
    ensures CachedTitlesAll(cache, names, base, get).0.Ok? <==>
      forall k :: 0 <= k < |names| ==> names[k] in cache || names[k] !in TitleNames || TitleCsv(base, names[k], get).Ok?
    decreases |names|
  {
    if names != [] {
      var (first, c1) := CachedTitles(cache, names[0], base, get);
      CachedTitlesGrows(cache, names[0], base, get);
      CachedTitlesAllOkIff(c1, names[1..], base, get);
      assert forall k :: 1 <= k < |names| ==> names[1..][k - 1] == names[k];
      if first.Ok? {
        forall k | 1 <= k < |names| && names[k] in c1 && names[k] !in cache
          ensures TitleCsv(base, names[k], get).Ok?
        {
          assert names[k] == names[0];
        }
      }
    }
  }

  /**
   * When a lookup raises, the error is the download error of a name that
   * stays uncached, so the next call downloads it again.
   */
  lemma {:induction false} CachedTitlesAllError(cache: map<string, seq<Row>>, names: seq<string>, base: string,
                                                get: string -> HttpResponse)
    ensures var (titles, after) := CachedTitlesAll(cache, names, base, get);
      titles.Err? ==> exists k :: (0 <= k < |names| && names[k] in TitleNames && names[k] !in after &&
        TitleCsv(base, names[k], get) == Err(titles.error))
    decreases |names|
  {
    if names != [] {
      var (first, c1) := CachedTitles(cache, names[0], base, get);
      var (titles, after) := CachedTitlesAll(cache, names, base, get);
      if first.Err? {
        assert names[0] in TitleNames && names[0] !in after && TitleCsv(base, names[0], get) == Err(titles.error);
      } else {
        CachedTitlesAllError(c1, names[1..], base, get);
        if titles.Err? {
          var k :| 0 <= k < |names[1..]| && names[1..][k] in TitleNames && names[1..][k] !in after &&
            TitleCsv(base, names[1..][k], get) == Err(titles.error);
          assert names[k + 1] == names[1..][k];
        }
      }
    }
  }

  // ---------------------------------------------------------------------
  // The title download
  // ---------------------------------------------------------------------

  /**
   * The title download raises exactly when the first answer that is not a
   * 404 is an HTTP error; otherwise it returns that answer's rows, and no
   * rows after two 404s.
   */
  lemma TitleCsvOutcome(base: string, name: string, get: string -> HttpResponse)
    ensures var plain := get(TitleUrl(base, name, false));
      var gz := get(TitleUrl(base, name, true));
      var decisive := if plain.status != 404 then plain else gz;
      (TitleCsv(base, name, get).Err? <==> decisive.status != 404 && 400 <= decisive.status < 600) &&
      (TitleCsv(base, name, get).Err? ==> TitleCsv(base, name, get).error == HttpError(decisive.status)) &&
      (TitleCsv(base, name, get).Ok? ==>
        TitleCsv(base, name, get).value == if decisive.status == 404 then [] else decisive.rows)
  {
  }
}
