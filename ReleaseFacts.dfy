/**
 * Properties of the archived release-schedule model: the precedence of the
 * period searches, the shape of the cleaned title, which table rows are
 * kept, the year page URL choice and the layout of the scraped records.
 */
module ReleaseFacts {
  import opened Wrappers
  import opened Text
  import opened ReleaseSchedule

  // ---------------------------------------------------------------------
  // Period precedence
  // ---------------------------------------------------------------------

  /** The pattern of `rule` matches somewhere in `p`. */
  ghost predicate RuleMatches(rule: PeriodRule, p: string) {
    exists q: nat :: q <= |p| && RuleAt(rule, p, q).Some?
  }

  /** A rule's search succeeds exactly when its pattern matches somewhere. */
  lemma RuleResultMatches(rule: PeriodRule, p: string)
    ensures RuleResult(rule, p).Some? <==> RuleMatches(rule, p)
  {
    match FindRuleFrom(rule, p, 0)
    case Some(q) =>
      assert RuleAt(rule, p, q).Some?;
    case None =>
  }

  /** The search stops at the first rule of the list that matches. */
  lemma {:induction false} FirstRuleWins(rules: seq<PeriodRule>, p: string, k: nat)
    requires k < |rules| && RuleResult(rules[k], p).Some?
    requires forall j :: 0 <= j < k ==> RuleResult(rules[j], p).None?
    ensures FirstRuleResult(rules, p) == RuleResult(rules[k], p).value
    decreases k
  {
    if k > 0 {
      assert rules[1..][k - 1] == rules[k];
      FirstRuleWins(rules[1..], p, k - 1);
    }
  }

  /** No rule of the list matches: no period at all. */
  lemma {:induction false} NoRuleMatches(rules: seq<PeriodRule>, p: string)
    requires forall j :: 0 <= j < |rules| ==> RuleResult(rules[j], p).None?
    ensures FirstRuleResult(rules, p) == NoPeriod
    decreases |rules|
  {
    if rules != [] {
      NoRuleMatches(rules[1..], p);
    }
  }

  /** A quarter is read exactly when the quarter pattern matches somewhere. */
  lemma PeriodQuarterIff(p: string)
    ensures PeriodIn(p).quarter.Some? <==> RuleMatches(QuarterRule, p)
  {
    RuleResultMatches(QuarterRule, p);
    RuleResultMatches(MonthRule, p);
    RuleResultMatches(FrequencyRule, p);
    RuleResultMatches(YearRule, p);
    PeriodCases(p);
  }

  /** A month is read exactly when no quarter matches and the month pattern does. */
  lemma PeriodMonthIff(p: string)
    ensures PeriodIn(p).month.Some? <==> !RuleMatches(QuarterRule, p) && RuleMatches(MonthRule, p)
  {
    RuleResultMatches(QuarterRule, p);
    RuleResultMatches(MonthRule, p);
    PeriodCases(p);
  }

  /** No period is read exactly when none of the four patterns matches. */
  lemma PeriodNoneIff(p: string)
    ensures PeriodIn(p) == NoPeriod <==>
      !RuleMatches(QuarterRule, p) && !RuleMatches(MonthRule, p) &&
      !RuleMatches(FrequencyRule, p) && !RuleMatches(YearRule, p)
  {
    RuleResultMatches(QuarterRule, p);
    RuleResultMatches(MonthRule, p);
    RuleResultMatches(FrequencyRule, p);
    RuleResultMatches(YearRule, p);
    PeriodCases(p);
  }

  /** The period is the result of the first of the four searches that succeeds, in order. */
  lemma PeriodCases(p: string)
    ensures PeriodIn(p) ==
      if RuleResult(QuarterRule, p).Some? then RuleResult(QuarterRule, p).value
      else if RuleResult(MonthRule, p).Some? then RuleResult(MonthRule, p).value
      else if RuleResult(FrequencyRule, p).Some? then RuleResult(FrequencyRule, p).value
      else if RuleResult(YearRule, p).Some? then RuleResult(YearRule, p).value
      else NoPeriod
  {
    var r1 := PeriodRules[1..];
    var r2 := r1[1..];
    var r3 := r2[1..];
    assert PeriodRules[0] == QuarterRule && r1[0] == MonthRule && r2[0] == FrequencyRule && r3[0] == YearRule;
    assert r3[1..] == [];
    assert FirstRuleResult(r3[1..], p) == NoPeriod;
  }

  /** Without ` for ` in the normalised text there is no period; otherwise the period is read after it. */
  lemma ReleasePeriodSource(releaseText: string)
    ensures var s := NormalizeSpace(releaseText);
      match FindForFrom(s, 0)
      case None => ParseReleaseText(releaseText).period == NoPeriod
      case Some(i) => ParseReleaseText(releaseText).period == PeriodIn(s[ForAt(s, i).value..])
  {
  }

  // ---------------------------------------------------------------------
  // The cleaned title
  // ---------------------------------------------------------------------

  /**
   * The title is the text before the first ` for `, less at most one
   * trailing tag: either nothing is removed, or what is removed is the
   * leftmost match of the tag pattern reaching the end.
   */
  lemma ReleaseTitleShape(releaseText: string)
    ensures var head := SplitAtFor(NormalizeSpace(releaseText)).0;
      var title := ParseReleaseText(releaseText).title;
      |title| <= |head| && head[..|title|] == title &&
      (title == head || (TagAt(head, |title|) && forall q :: 0 <= q < |title| ==> !TagAt(head, q)))
  {
    var head := SplitAtFor(NormalizeSpace(releaseText)).0;
    match FindTagFrom(head, 0)
    case None =>
    case Some(q) =>
      assert StripTag(head) == head[..q];
  }

  /** A title in which no tag starts at any position is left unchanged. */
  lemma StripTagNoTag(t: string)
    requires forall q :: 0 <= q <= |t| ==> !TagAt(t, q)
    ensures StripTag(t) == t
  {
  }

  /** The title does not depend on what follows the first ` for `. */
  lemma ReleaseTitleIgnoresPeriod(a: string, b: string)
    requires SplitAtFor(NormalizeSpace(a)).0 == SplitAtFor(NormalizeSpace(b)).0
    ensures ParseReleaseText(a).title == ParseReleaseText(b).title
  {
  }

  // ---------------------------------------------------------------------
  // Rows kept from the schedule tables
  // ---------------------------------------------------------------------

  /** What every kept row satisfies: the date and time grammars and a non-empty release. */
  predicate RowChecks(r: RawRow) {
    DateCellOk(Strip(r.dateRaw)) && TimeCellOk(r.time) && r.releaseRaw != [] && Nbsp !in r.dateRaw
  }

  /** The row a kept data row yields, cell by cell. */
  lemma AcceptRowValue(row: HtmlRow)
    requires AcceptRow(row).Some?
    ensures |row.cells| == 3
    ensures AcceptRow(row).value == RawRow(ReplaceChar(row.cells[0], Nbsp, ' '),
                                           NormalizeSpace(ReplaceChar(row.cells[1], Nbsp, ' ')),
                                           NormalizeSpace(ReplaceChar(row.cells[2], Nbsp, ' ')))
  {
  }

  /** A kept row came from three data cells and passes the checks. */
  lemma AcceptRowChecks(row: HtmlRow)
    requires AcceptRow(row).Some?
    ensures |row.cells| == 3 && RowChecks(AcceptRow(row).value)
    ensures AcceptRow(row).value.dateRaw == ReplaceChar(row.cells[0], Nbsp, ' ')
    ensures AcceptRow(row).value.time == NormalizeSpace(ReplaceChar(row.cells[1], Nbsp, ' '))
    ensures AcceptRow(row).value.releaseRaw == NormalizeSpace(ReplaceChar(row.cells[2], Nbsp, ' '))
  {
    AcceptRowValue(row);
    var r := AcceptRow(row).value;
    assert DateCellOk(Strip(r.dateRaw)) && TimeCellOk(r.time) && r.releaseRaw != [];
  }

  /** Before a row with header cells, scanning two runs is scanning each. */
  lemma {:induction false} ScanRowsAppend(a: seq<HtmlRow>, b: seq<HtmlRow>, keep: HtmlRow -> Option<RawRow>)
    requires forall i :: 0 <= i < |a| ==> a[i].headers == []
    ensures ScanRows(a + b, keep) == ScanRows(a, keep) + ScanRows(b, keep)
    decreases |a|
  {
    if a != [] {
      assert (a + b)[0] == a[0];
      assert (a + b)[1..] == a[1..] + b;
      ScanRowsAppend(a[1..], b, keep);
    } else {
      assert a + b == b;
    }
  }

  /** No row up to and including `j` has a header cell. */
  predicate HeaderFreeThrough(rows: seq<HtmlRow>, j: nat)
    requires j < |rows|
  {
    forall m :: 0 <= m <= j ==> rows[m].headers == []
  }

  /** Every position moved one row on. */
  function Shifted(s: seq<nat>): (r: seq<nat>)
    ensures |r| == |s| && forall i :: 0 <= i < |s| ==> r[i] == s[i] + 1
  {
    seq(|s|, i requires 0 <= i < |s| => s[i] + 1)
  }

  /** The positions of the rows the scan keeps, left to right. */
  function KeptPositions(rows: seq<HtmlRow>, keep: HtmlRow -> Option<RawRow>): seq<nat>
    decreases |rows|
  {
    if rows == [] || rows[0].headers != [] then []
    else (if keep(rows[0]).Some? then [0] else []) + Shifted(KeptPositions(rows[1..], keep))
  }

  /** A row after a header-free first row is header-free through `j + 1` when it is so through `j` in the rest. */
  lemma HeaderFreeShift(rows: seq<HtmlRow>, j: nat)
    requires j + 1 < |rows| && rows[0].headers == [] && HeaderFreeThrough(rows[1..], j)
    ensures HeaderFreeThrough(rows, j + 1)
  {
    forall m | 0 <= m <= j + 1 ensures rows[m].headers == [] {
      if m > 0 { assert rows[m] == rows[1..][m - 1]; }
    }
  }

  /** There is one kept position per scanned row. */
  lemma {:induction false} KeptPositionsLength(rows: seq<HtmlRow>, keep: HtmlRow -> Option<RawRow>)
    ensures |KeptPositions(rows, keep)| == |ScanRows(rows, keep)|
    decreases |rows|
  {
    if rows != [] && rows[0].headers == [] {
      KeptPositionsLength(rows[1..], keep);
    }
  }

  /** The i-th kept position lies before any header row, and `keep` yields the i-th scanned row there. */
  lemma {:induction false} KeptPositionAt(rows: seq<HtmlRow>, keep: HtmlRow -> Option<RawRow>, i: nat)
    requires i < |KeptPositions(rows, keep)|
    ensures i < |ScanRows(rows, keep)|
    ensures KeptPositions(rows, keep)[i] < |rows| && HeaderFreeThrough(rows, KeptPositions(rows, keep)[i]) &&
      keep(rows[KeptPositions(rows, keep)[i]]) == Some(ScanRows(rows, keep)[i])
    decreases |rows|
  {
    KeptPositionsLength(rows, keep);
    var r, r' := ScanRows(rows, keep), ScanRows(rows[1..], keep);
    var p, p' := KeptPositions(rows, keep), KeptPositions(rows[1..], keep);
    var h := if keep(rows[0]).Some? then [keep(rows[0]).value] else [];
    var z: seq<nat> := if keep(rows[0]).Some? then [0] else [];
    assert r == h + r' && p == z + Shifted(p');
    if i >= |z| {
      var j := p'[i - |z|];
      KeptPositionAt(rows[1..], keep, i - |z|);
      assert p[i] == j + 1 && r[i] == r'[i - |z|] && rows[j + 1] == rows[1..][j];
      HeaderFreeShift(rows, j);
    }
  }

  /** The i-th scanned row is what `keep` yields at the i-th kept position, a data row before any header row. */
  lemma KeptPositionsSound(rows: seq<HtmlRow>, keep: HtmlRow -> Option<RawRow>)
    ensures |KeptPositions(rows, keep)| == |ScanRows(rows, keep)|
    ensures forall i :: 0 <= i < |KeptPositions(rows, keep)| ==>
      KeptPositions(rows, keep)[i] < |rows| && HeaderFreeThrough(rows, KeptPositions(rows, keep)[i]) &&
      keep(rows[KeptPositions(rows, keep)[i]]) == Some(ScanRows(rows, keep)[i])
  {
    KeptPositionsLength(rows, keep);
    forall i | 0 <= i < |KeptPositions(rows, keep)|
      ensures KeptPositions(rows, keep)[i] < |rows| && HeaderFreeThrough(rows, KeptPositions(rows, keep)[i]) &&
        keep(rows[KeptPositions(rows, keep)[i]]) == Some(ScanRows(rows, keep)[i])
    {
      KeptPositionAt(rows, keep, i);
    }
  }

  /** The kept positions strictly increase: the scan keeps the rows in table order. */
  lemma {:induction false} KeptPositionsIncreasing(rows: seq<HtmlRow>, keep: HtmlRow -> Option<RawRow>)
    ensures forall i, k :: 0 <= i < k < |KeptPositions(rows, keep)| ==>
      KeptPositions(rows, keep)[i] < KeptPositions(rows, keep)[k]
    decreases |rows|
  {
    if rows != [] && rows[0].headers == [] {
      KeptPositionsIncreasing(rows[1..], keep);
      var p, p' := KeptPositions(rows, keep), KeptPositions(rows[1..], keep);
      var z: seq<nat> := if keep(rows[0]).Some? then [0] else [];
      assert p == z + Shifted(p');
      forall i, k | 0 <= i < k < |p| ensures p[i] < p[k] {
        if i >= |z| {
          assert p[i] == p'[i - |z|] + 1 && p[k] == p'[k - |z|] + 1;
        }
      }
    }
  }

  /** Every data row before the first header row for which `keep` yields a row is kept. */
  lemma {:induction false} KeptPositionsComplete(rows: seq<HtmlRow>, keep: HtmlRow -> Option<RawRow>)
    ensures forall j :: 0 <= j < |rows| && HeaderFreeThrough(rows, j) && keep(rows[j]).Some? ==>
      j in KeptPositions(rows, keep)
    decreases |rows|
  {
    if rows != [] && rows[0].headers == [] {
      KeptPositionsComplete(rows[1..], keep);
      var p, p' := KeptPositions(rows, keep), KeptPositions(rows[1..], keep);
      var z: seq<nat> := if keep(rows[0]).Some? then [0] else [];
      assert p == z + Shifted(p');
      forall j | 0 <= j < |rows| && HeaderFreeThrough(rows, j) && keep(rows[j]).Some?
        ensures j in p
      {
        if j > 0 {
          assert rows[1..][j - 1] == rows[j];
          assert HeaderFreeThrough(rows[1..], j - 1) by {
            forall m | 0 <= m <= j - 1 ensures rows[1..][m].headers == [] {
              assert rows[1..][m] == rows[m + 1];
            }
          }
          var k :| 0 <= k < |p'| && p'[k] == j - 1;
          assert p[k + |z|] == j;
        } else {
          assert p[0] == 0;
        }
      }
    }
  }

  /**
   * The scan keeps, in table order, exactly what `keep` yields for the data
   * rows before the first header row: the i-th scanned row comes from the
   * i-th kept position, the positions increase, and no such row is missed.
   */
  lemma ScanRowsFrom(rows: seq<HtmlRow>, keep: HtmlRow -> Option<RawRow>)
    ensures forall i :: 0 <= i < |ScanRows(rows, keep)| ==>
      exists j :: (0 <= j < |rows| && keep(rows[j]) == Some(ScanRows(rows, keep)[i]) &&
        forall m :: 0 <= m <= j ==> rows[m].headers == [])
    ensures var r, p := ScanRows(rows, keep), KeptPositions(rows, keep);
      |p| == |r| &&
      (forall i :: 0 <= i < |p| ==> p[i] < |rows| && HeaderFreeThrough(rows, p[i]) && keep(rows[p[i]]) == Some(r[i])) &&
      (forall i, k :: 0 <= i < k < |p| ==> p[i] < p[k]) &&
      (forall j :: 0 <= j < |rows| && HeaderFreeThrough(rows, j) && keep(rows[j]).Some? ==> j in p)
  {
    KeptPositionsSound(rows, keep);
    KeptPositionsIncreasing(rows, keep);
    KeptPositionsComplete(rows, keep);
    var r, p := ScanRows(rows, keep), KeptPositions(rows, keep);
    forall i | 0 <= i < |r|
      ensures exists j :: (0 <= j < |rows| && keep(rows[j]) == Some(r[i]) &&
        forall m :: 0 <= m <= j ==> rows[m].headers == [])
    {
      assert HeaderFreeThrough(rows, p[i]);
    }
  }

  /** Before a row with header cells, the rows kept from two runs are the rows of each. */
  lemma BodyRowsAppend(a: seq<HtmlRow>, b: seq<HtmlRow>)
    requires forall i :: 0 <= i < |a| ==> a[i].headers == []
    ensures BodyRows(a + b) == BodyRows(a) + BodyRows(b)
  {
    ScanRowsAppend(a, b, AcceptRow);
  }

  /** Scanning stops at the first row with a header cell: nothing after it is read. */
  lemma BodyRowsStopAt(a: seq<HtmlRow>, b: seq<HtmlRow>)
    requires forall i :: 0 <= i < |a| ==> a[i].headers == []
    requires b != [] && b[0].headers != []
    ensures BodyRows(a + b) == BodyRows(a)
  {
    ScanRowsAppend(a, b, AcceptRow);
  }

  /** Every row kept from a run passes the checks. */
  lemma BodyRowsChecked(rows: seq<HtmlRow>)
    ensures forall i :: 0 <= i < |BodyRows(rows)| ==> RowChecks(BodyRows(rows)[i])
  {
    ScanRowsFrom(rows, AcceptRow);
    forall i | 0 <= i < |BodyRows(rows)| ensures RowChecks(BodyRows(rows)[i]) {
      var j :| 0 <= j < |rows| && AcceptRow(rows[j]) == Some(BodyRows(rows)[i]) &&
        forall m :: 0 <= m <= j ==> rows[m].headers == [];
      AcceptRowChecks(rows[j]);
    }
  }

  /** A table without a header row contributes nothing. */
  lemma TableRowsNoHeader(t: HtmlTable)
    requires forall i :: 0 <= i < |t| ==> !IsHeaderRow(t[i])
    ensures TableRows(t) == []
  {
  }

  /** The rows of a page are the rows of its tables in order. */
  lemma {:induction false} ExtractedRowsAppend(a: seq<HtmlTable>, b: seq<HtmlTable>)
    ensures ExtractedRows(a + b) == ExtractedRows(a) + ExtractedRows(b)
    decreases |b|
  {
    if b == [] {
      assert a + b == a;
    } else {
      var b' := b[..|b| - 1];
      assert (a + b)[..|a + b| - 1] == a + b';
      ExtractedRowsAppend(a, b');
    }
  }

  /** Every row taken from a page passes the checks. */
  lemma {:induction false} ExtractedRowsChecked(tables: seq<HtmlTable>)
    ensures forall i :: 0 <= i < |ExtractedRows(tables)| ==> RowChecks(ExtractedRows(tables)[i])
    decreases |tables|
  {
    if tables != [] {
      var init := tables[..|tables| - 1];
      var t := tables[|tables| - 1];
      ExtractedRowsChecked(init);
      TableRowsChecked(t);
      var a := ExtractedRows(init);
      var b := TableRows(t);
      assert ExtractedRows(tables) == a + b;
      forall i | 0 <= i < |a + b| ensures RowChecks((a + b)[i]) {
        if i < |a| {
          assert (a + b)[i] == a[i];
        } else {
          assert (a + b)[i] == b[i - |a|];
        }
      }
    }
  }

  /** Every row taken from one table passes the checks. */
  lemma TableRowsChecked(t: HtmlTable)
    ensures forall i :: 0 <= i < |TableRows(t)| ==> RowChecks(TableRows(t)[i])
  {
    match FindHeaderFrom(t, 0)
    case None =>
    case Some(h) => BodyRowsChecked(t[h + 1..]);
  }

  // ---------------------------------------------------------------------
  // The year page URL
  // ---------------------------------------------------------------------

  /** No link mentions the year: the archive URL of the year is opened. */
  lemma YearPageUrlFallback(links: seq<(string, string)>, year: int)
    requires forall j :: 0 <= j < |links| ==> !MentionsYear(links[j], year)
    ensures YearPageUrl(links, year) == ArchiveYearUrl(year)
  {
  }

  /** The first link mentioning the year is opened when its href is non-empty, otherwise the archive URL. */
  lemma YearPageUrlFirst(links: seq<(string, string)>, year: int, j: nat)
    requires j < |links| && MentionsYear(links[j], year)
    requires forall i :: 0 <= i < j ==> !MentionsYear(links[i], year)
    ensures YearPageUrl(links, year) == if links[j].1 != "" then links[j].1 else ArchiveYearUrl(year)
  {
    var r := FirstYearLink(links, year, 0);
    assert r.Some?;
    assert !(r.value < j) && !(j < r.value);
  }

  // ---------------------------------------------------------------------
  // Scraped records
  // ---------------------------------------------------------------------

  /** Scraping several years is scraping each year, in order. */
  lemma {:induction false} ScrapeRecordsAppend(a: seq<int>, b: seq<int>, links: seq<(string, string)>, browse: string -> YearPage)
    ensures ScrapeRecords(a + b, links, browse) == ScrapeRecords(a, links, browse) + ScrapeRecords(b, links, browse)
    decreases |b|
  {
    if b == [] {
      assert a + b == a;
    } else {
      var b' := b[..|b| - 1];
      assert (a + b)[..|a + b| - 1] == a + b';
      ScrapeRecordsAppend(a, b', links, browse);
    }
  }

  /** Every record names one of the requested years and at most one of month and quarter. */
  lemma {:induction false} ScrapedRecordsWellFormed(years: seq<int>, links: seq<(string, string)>, browse: string -> YearPage)
    ensures forall i :: 0 <= i < |ScrapeRecords(years, links, browse)| ==>
      var r := ScrapeRecords(years, links, browse)[i];
      r.sourceYearPage in years && !(r.periodMonth.Some? && r.periodQuarter.Some?)
    decreases |years|
  {
    if years != [] {
      var init := years[..|years| - 1];
      var y := years[|years| - 1];
      ScrapedRecordsWellFormed(init, links, browse);
      var page := browse(YearPageUrl(links, y));
      var recs := ScrapeRecords(years, links, browse);
      forall i | 0 <= i < |recs|
        ensures recs[i].sourceYearPage in years && !(recs[i].periodMonth.Some? && recs[i].periodQuarter.Some?)
      {
        var n := |ScrapeRecords(init, links, browse)|;
        if i >= n {
          assert recs[i] == YearRecords(links, browse, y)[i - n];
        } else {
          assert recs[i] == ScrapeRecords(init, links, browse)[i];
          assert init[..] <= years;
        }
      }
    }
  }

  /** Scraping one year more adds that year's records at the end. */
  lemma ScrapeRecordsStep(years: seq<int>, links: seq<(string, string)>, browse: string -> YearPage, k: nat)
    requires k < |years|
    ensures ScrapeRecords(years[..k + 1], links, browse)
            == ScrapeRecords(years[..k], links, browse) + YearRecords(links, browse, years[k])
  {
    assert years[..k + 1][..k] == years[..k];
  }

  /** The records of a list of years start with those of each of its prefixes. */
  lemma ScrapeRecordsPrefix(years: seq<int>, links: seq<(string, string)>, browse: string -> YearPage, k: nat)
    requires k <= |years|
    ensures ScrapeRecords(years, links, browse)
            == ScrapeRecords(years[..k], links, browse) + ScrapeRecords(years[k..], links, browse)
  {
    ScrapeRecordsAppend(years[..k], years[k..], links, browse);
    assert years[..k] + years[k..] == years;
  }

  /**
   * The records of the `k`-th requested year form one block, between the
   * records of the years before it and those after it: they are that year's
   * page records, each naming `years[k]` as its year page.
   */
  lemma ScrapedYearBlock(years: seq<int>, links: seq<(string, string)>, browse: string -> YearPage, k: nat)
    requires k < |years|
    ensures |ScrapeRecords(years[..k], links, browse)| <= |ScrapeRecords(years[..k + 1], links, browse)|
            <= |ScrapeRecords(years, links, browse)|
    ensures ScrapeRecords(years, links, browse)[|ScrapeRecords(years[..k], links, browse)|..
                                               |ScrapeRecords(years[..k + 1], links, browse)|]
            == YearRecords(links, browse, years[k])
    ensures forall i :: |ScrapeRecords(years[..k], links, browse)| <= i < |ScrapeRecords(years[..k + 1], links, browse)| ==>
      ScrapeRecords(years, links, browse)[i].sourceYearPage == years[k]
  {
    var before, upto := ScrapeRecords(years[..k], links, browse), ScrapeRecords(years[..k + 1], links, browse);
    var block := YearRecords(links, browse, years[k]);
    var all := ScrapeRecords(years, links, browse);
    ScrapeRecordsStep(years, links, browse, k);
    ScrapeRecordsPrefix(years, links, browse, k + 1);
    assert all[|before|..|upto|] == block;
    forall i | |before| <= i < |upto|
      ensures all[i].sourceYearPage == years[k]
    {
      assert all[i] == block[i - |before|];
    }
  }
}
