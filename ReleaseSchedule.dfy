/**
 * The archived release-schedule scraper (bls_sdk/release_schedule.py) with
 * the browser and the HTML parser abstracted away: a year page is given as
 * its tables, each a sequence of rows holding the texts of their header
 * (`th`) and data (`td`) cells.
 *
 * Modelled: the release description parser (title clean-up and period
 * precedence), the table header detection and the rules for keeping rows, the
 * choice of the year page URL, and the record assembly.
 */
module ReleaseSchedule {
  import opened Wrappers
  import opened Text

  // ---------------------------------------------------------------------
  // Tables
  // ---------------------------------------------------------------------

  /** `_MONTH_TO_NUM` of this module: full month names only. */
  const MonthToNum: map<string, nat> := map[
    "january" := 1, "february" := 2, "march" := 3, "april" := 4,
    "may" := 5, "june" := 6, "july" := 7, "august" := 8,
    "september" := 9, "october" := 10, "november" := 11, "december" := 12
  ]

  /** `_QUARTER_WORD_TO_NUM`. */
  const QuarterWordToNum: map<string, nat> := map["first" := 1, "second" := 2, "third" := 3, "fourth" := 4]

  /** The alternatives of the month group, in pattern order. */
  const MonthNames: seq<string> := [
    "january", "february", "march", "april", "may", "june", "july",
    "august", "september", "october", "november", "december"
  ]

  /** The alternatives of the quarter-word group, in pattern order. */
  const QuarterWords: seq<string> := ["first", "second", "third", "fourth"]

  /** The alternatives of the weekday group of the date cell pattern. */
  const Weekdays: seq<string> := ["monday", "tuesday", "wednesday", "thursday", "friday", "saturday", "sunday"]

  /** The tags `(Monthly|Annual|Biennial|P|R)` removed from the end of a title. */
  const TagWords: seq<string> := ["monthly", "annual", "biennial", "p", "r"]

  /** `(Annual|Biennial)` before a year. */
  const FrequencyWords: seq<string> := ["annual", "biennial"]

  /** Every word the month and quarter groups can capture is a key of its table. */
  lemma TableKeys()
    ensures forall a :: 0 <= a < |MonthNames| ==> MonthNames[a] in MonthToNum
    ensures forall a :: 0 <= a < |QuarterWords| ==> QuarterWords[a] in QuarterWordToNum
  {
  }

  /** The tables number months 1 to 12 and quarters 1 to 4. */
  lemma TableRanges()
    ensures forall w :: w in MonthToNum ==> 1 <= MonthToNum[w] <= 12
    ensures forall w :: w in QuarterWordToNum ==> 1 <= QuarterWordToNum[w] <= 4
  {
  }

  /** A month alternative is a key of the table with a month number. */
  lemma MonthNameInTable(a: nat)
    requires a < |MonthNames|
    ensures MonthNames[a] in MonthToNum && 1 <= MonthToNum[MonthNames[a]] <= 12
  {
    TableKeys();
    TableRanges();
  }

  /** Four ASCII digits at `q`. */
  predicate FourDigitsAt(s: string, q: nat) {
    q + 4 <= |s| && AllDigits(s[q..q + 4])
  }

  /** The number written by the four digits at `q`. */
  function YearAt(s: string, q: nat): (r: nat)
    requires FourDigitsAt(s, q)
    ensures r < 10000
  {
    DecimalValueBound(s[q..q + 4]);
    assert Pow10(4) == 10000;
    DecimalValue(s[q..q + 4])
  }

  // ---------------------------------------------------------------------
  // `_parse_release_text`: split at the first ` for `
  // ---------------------------------------------------------------------

  /** `\s+for\s+` at `i` (case-insensitive): the index just past the match. */
  function ForAt(s: string, i: nat): (r: Option<nat>)
    requires i <= |s|
    ensures r.Some? ==> i < r.value <= |s|
  {
    if !(i < |s| && IsSpace(s[i])) then None
    else
      var j := SkipSpaces(s, i);
      if MatchesAt(s, j, "for") && j + 3 < |s| && IsSpace(s[j + 3]) then Some(SkipSpaces(s, j + 3))
      else None
  }

  /** `re.search` of `\s+for\s+` from `i`: the leftmost start of a match. */
  function FindForFrom(s: string, i: nat): (r: Option<nat>)
    requires i <= |s|
    ensures r.Some? ==> i <= r.value <= |s| && ForAt(s, r.value).Some?
    ensures r.Some? ==> forall q :: i <= q < r.value ==> ForAt(s, q).None?
    ensures r.None? ==> forall q :: i <= q <= |s| ==> ForAt(s, q).None?
    decreases |s| - i
  {
    if ForAt(s, i).Some? then Some(i)
    else if i == |s| then None
    else
      var r := FindForFrom(s, i + 1);
      assert r.Some? ==> forall q :: i <= q < r.value ==> q == i || ForAt(s, q).None?;
      r
  }

  /** The split at the first ` for ` (case-insensitive, at most once): the title part and, if split, the period part. */
  function SplitAtFor(s: string): (r: (string, Option<string>))
    ensures |r.0| <= |s| && r.0 == s[..|r.0|]
  {
    match FindForFrom(s, 0)
    case None => (s, None)
    case Some(i) => (s[..i], Some(s[ForAt(s, i).value..]))
  }

  // ---------------------------------------------------------------------
  // Trailing tag of the title: \s*\((?:Monthly|Annual|Biennial|P|R)\)\s*$
  // ---------------------------------------------------------------------

  /** The tag pattern matches from `q` to the end of `t`. */
  predicate TagAt(t: string, q: nat)
    requires q <= |t|
  {
    var j := SkipSpaces(t, q);
    j < |t| && t[j] == '(' &&
    match WordAt(t, j + 1, TagWords, 0)
    case None => false
    case Some(a) =>
      var c := j + 1 + |TagWords[a]|;
      c < |t| && t[c] == ')' && SkipSpaces(t, c + 1) == |t|
  }

  /** The leftmost start of the tag pattern. */
  function FindTagFrom(t: string, i: nat): (r: Option<nat>)
    requires i <= |t|
    ensures r.Some? ==> i <= r.value <= |t| && TagAt(t, r.value)
    ensures r.Some? ==> forall q :: i <= q < r.value ==> !TagAt(t, q)
    ensures r.None? ==> forall q :: i <= q <= |t| ==> !TagAt(t, q)
    decreases |t| - i
  {
    if TagAt(t, i) then Some(i)
    else if i == |t| then None
    else
      var r := FindTagFrom(t, i + 1);
      assert r.Some? ==> forall q :: i <= q < r.value ==> q == i || !TagAt(t, q);
      r
  }

  /** `re.sub` of the tag pattern by "": the anchored pattern can match at most once. */
  function StripTag(t: string): (r: string)
    ensures |r| <= |t| && r == t[..|r|]
  {
    match FindTagFrom(t, 0)
    case None => t
    case Some(q) => t[..q]
  }

  // ---------------------------------------------------------------------
  // Period rules, each searched anywhere in the period part
  // ---------------------------------------------------------------------

  /** The period of a release: year, and at most one of month or quarter. */
  datatype Period = Period(year: Option<int>, month: Option<int>, quarter: Option<int>)

  const NoPeriod := Period(None, None, None)

  /** The four searches of the period part, in the order they are tried. */
  datatype PeriodRule = QuarterRule | MonthRule | FrequencyRule | YearRule

  /** `\s+` then four digits, from `k`: the start of the digits. */
  function SpaceThenYear(s: string, k: nat): (r: Option<nat>)
    requires k <= |s|
    ensures r.Some? ==> FourDigitsAt(s, r.value)
  {
    if !(k < |s| && IsSpace(s[k])) then None
    else
      var y := SkipSpaces(s, k);
      if FourDigitsAt(s, y) then Some(y) else None
  }

  /** An ordinal quarter word, `Quarter` and a four-digit year at `q` (case-insensitive). */
  function QuarterRuleAt(p: string, q: nat): (r: Option<Period>)
    requires q <= |p|
    ensures r.Some? ==> r.value.year.Some? && r.value.month.None? && r.value.quarter.Some?
    ensures r.Some? ==> 0 <= r.value.year.value < 10000 && 1 <= r.value.quarter.value <= 4
  {
    match WordAt(p, q, QuarterWords, 0)
    case None => None
    case Some(a) =>
      var k := q + |QuarterWords[a]|;
      if !(k < |p| && IsSpace(p[k])) then None
      else
        var k2 := SkipSpaces(p, k);
        if !MatchesAt(p, k2, "quarter") then None
        else
          match SpaceThenYear(p, k2 + 7)
          case None => None
          case Some(y) =>
            TableKeys();
            TableRanges();
            Some(Period(Some(YearAt(p, y)), None, Some(QuarterWordToNum[Lower(p[q..k])])))
  }

  /** A full month name and a four-digit year at `q` (case-insensitive). */
  function MonthRuleAt(p: string, q: nat): (r: Option<Period>)
    requires q <= |p|
    ensures r.Some? ==> r.value.year.Some? && r.value.month.Some? && r.value.quarter.None?
    ensures r.Some? ==> 0 <= r.value.year.value < 10000 && 1 <= r.value.month.value <= 12
  {
    match WordAt(p, q, MonthNames, 0)
    case None => None
    case Some(a) =>
      match SpaceThenYear(p, q + |MonthNames[a]|)
      case None => None
      case Some(y) =>
        var name := Lower(p[q..q + |MonthNames[a]|]);
        assert name == MonthNames[a];
        MonthNameInTable(a);
        Some(Period(Some(YearAt(p, y)), Some(MonthToNum[name]), None))
  }

  /** `Annual` or `Biennial` and a four-digit year at `q` (case-insensitive): the year only. */
  function FrequencyRuleAt(p: string, q: nat): (r: Option<Period>)
    requires q <= |p|
    ensures r.Some? ==> r.value.year.Some? && r.value.month.None? && r.value.quarter.None?
    ensures r.Some? ==> 0 <= r.value.year.value < 10000
  {
    match WordAt(p, q, FrequencyWords, 0)
    case None => None
    case Some(a) =>
      match SpaceThenYear(p, q + |FrequencyWords[a]|)
      case None => None
      case Some(y) => Some(Period(Some(YearAt(p, y)), None, None))
  }

  /** A standalone four-digit number at `q`: the year only. */
  function YearRuleAt(p: string, q: nat): (r: Option<Period>)
    requires q <= |p|
    ensures r.Some? ==> r.value.year.Some? && r.value.month.None? && r.value.quarter.None?
    ensures r.Some? ==> 0 <= r.value.year.value < 10000
  {
    if FourDigitsAt(p, q) && WordBoundary(p, q) && WordBoundary(p, q + 4)
    then Some(Period(Some(YearAt(p, q)), None, None))
    else None
  }

  /** One rule tried at `q`. */
  function RuleAt(rule: PeriodRule, p: string, q: nat): (r: Option<Period>)
    requires q <= |p|
    ensures r.Some? ==> r.value.year.Some? && 0 <= r.value.year.value < 10000
    ensures r.Some? ==> (r.value.quarter.Some? <==> rule == QuarterRule)
    ensures r.Some? ==> (r.value.month.Some? <==> rule == MonthRule)
    ensures r.Some? && r.value.quarter.Some? ==> 1 <= r.value.quarter.value <= 4
    ensures r.Some? && r.value.month.Some? ==> 1 <= r.value.month.value <= 12
  {
    match rule
    case QuarterRule => QuarterRuleAt(p, q)
    case MonthRule => MonthRuleAt(p, q)
    case FrequencyRule => FrequencyRuleAt(p, q)
    case YearRule => YearRuleAt(p, q)
  }

  /** `re.search` of one rule from `i`. */
  function FindRuleFrom(rule: PeriodRule, p: string, i: nat): (r: Option<nat>)
    requires i <= |p|
    ensures r.Some? ==> i <= r.value <= |p| && RuleAt(rule, p, r.value).Some?
    ensures r.Some? ==> forall q :: i <= q < r.value ==> RuleAt(rule, p, q).None?
    ensures r.None? ==> forall q :: i <= q <= |p| ==> RuleAt(rule, p, q).None?
    decreases |p| - i
  {
    if RuleAt(rule, p, i).Some? then Some(i)
    else if i == |p| then None
    else
      var r := FindRuleFrom(rule, p, i + 1);
      assert r.Some? ==> forall q :: i <= q < r.value ==> q == i || RuleAt(rule, p, q).None?;
      r
  }

  /** One rule's search: the period at its leftmost match, if any. */
  function RuleResult(rule: PeriodRule, p: string): (r: Option<Period>)
    ensures r.Some? <==> FindRuleFrom(rule, p, 0).Some?
  {
    match FindRuleFrom(rule, p, 0)
    case None => None
    case Some(q) => RuleAt(rule, p, q)
  }

  /** The search order of the period part: quarter, month, Annual/Biennial, any year. */
  const PeriodRules: seq<PeriodRule> := [QuarterRule, MonthRule, FrequencyRule, YearRule]

  /** The period of the first of `rules` that matches; no period when none does. */
  function FirstRuleResult(rules: seq<PeriodRule>, p: string): (r: Period)
    ensures !(r.month.Some? && r.quarter.Some?)
    ensures r.quarter.Some? ==> 1 <= r.quarter.value <= 4 && QuarterRule in rules
    ensures r.month.Some? ==> 1 <= r.month.value <= 12 && MonthRule in rules
    ensures r.year.None? ==> r == NoPeriod
    ensures r.year.Some? ==> 0 <= r.year.value < 10000
    decreases |rules|
  {
    if rules == [] then NoPeriod
    else
      match RuleResult(rules[0], p)
      case Some(period) => period
      case None => FirstRuleResult(rules[1..], p)
  }

  /** The period part read by the rules in order. */
  function PeriodIn(p: string): Period {
    FirstRuleResult(PeriodRules, p)
  }

  /** What `_parse_release_text` returns: the clean title and the period. */
  datatype ReleaseParts = ReleaseParts(title: string, period: Period)

  /** `_parse_release_text`. */
  function ParseReleaseText(releaseText: string): (r: ReleaseParts)
    ensures !(r.period.month.Some? && r.period.quarter.Some?)
    ensures r.period.quarter.Some? ==> 1 <= r.period.quarter.value <= 4
    ensures r.period.month.Some? ==> 1 <= r.period.month.value <= 12
    ensures r.period.year.None? ==> r.period == NoPeriod
  {
    var s := NormalizeSpace(releaseText);
    var (head, rest) := SplitAtFor(s);
    var title := StripTag(head);
    match rest
    case None => ReleaseParts(title, NoPeriod)
    case Some(p) => ReleaseParts(title, PeriodIn(p))
  }

  // ---------------------------------------------------------------------
  // `_extract_rows_with_selenium` over abstract tables
  // ---------------------------------------------------------------------

  /** A `tr`: the texts of its `th` cells and of its `td` cells, in document order. */
  datatype HtmlRow = HtmlRow(headers: seq<string>, cells: seq<string>)

  /** The `tr` rows of one `table`. */
  type HtmlTable = seq<HtmlRow>

  /** One accepted schedule row: raw date text, normalised time and release text. */
  datatype RawRow = RawRow(dateRaw: string, time: string, releaseRaw: string)

  /** A header text with whitespace collapsed, lower-cased, trailing colons removed. */
  function NormHeader(h: string): string {
    RStripChars(Lower(NormalizeSpace(h)), {':'})
  }

  /** A row with header cells whose first three read `date`, `time`, `release`. */
  predicate IsHeaderRow(row: HtmlRow) {
    var headers := seq(|row.headers|, k requires 0 <= k < |row.headers| => NormHeader(row.headers[k]));
    |headers| >= 3 && headers[..3] == HeaderNames
  }

  /** The first three header texts of the schedule table. */
  const HeaderNames: seq<string> := ["date", "time", "release"]

  /** The index of the first header row at or after `i`. */
  function FindHeaderFrom(t: HtmlTable, i: nat): (r: Option<nat>)
    requires i <= |t|
    ensures r.Some? ==> i <= r.value < |t| && IsHeaderRow(t[r.value])
    ensures r.Some? ==> forall q :: i <= q < r.value ==> !IsHeaderRow(t[q])
    ensures r.None? ==> forall q :: i <= q < |t| ==> !IsHeaderRow(t[q])
    decreases |t| - i
  {
    if i == |t| then None
    else if IsHeaderRow(t[i]) then Some(i)
    else FindHeaderFrom(t, i + 1)
  }

  /**
   * The parts of the two anchored cell patterns. Each part is matched
   * greedily; for these patterns no backtracking can change the outcome,
   * since what follows a part can never begin with what the part consumes.
   */
  datatype Part =
    | Char(c: char)                        // one literal character
    | OneOf(words: seq<string>)            // an alternation of words, case-insensitive
    | Spaces(least: nat)                   // `\s*` (least 0) or `\s+` (least 1)
    | DigitRun(least: nat, most: nat)      // `\d{least,most}`

  /** The end of the run of at most `most` digits from `i`. */
  function DigitRunEnd(s: string, i: nat, most: nat): (r: nat)
    requires i <= |s|
    ensures i <= r <= |s| && r - i <= most
    ensures forall k :: i <= k < r ==> IsDigit(s[k])
    ensures r - i == most || r == |s| || !IsDigit(s[r])
    decreases most
  {
    if most > 0 && i < |s| && IsDigit(s[i]) then DigitRunEnd(s, i + 1, most - 1) else i
  }

  /** The parts match `s` from `i` to its end. */
  predicate MatchesToEnd(parts: seq<Part>, s: string, i: nat)
    requires i <= |s|
    decreases |parts|
  {
    if parts == [] then i == |s|
    else
      match parts[0]
      case Char(c) => i < |s| && s[i] == c && MatchesToEnd(parts[1..], s, i + 1)
      case OneOf(words) =>
        (match WordAt(s, i, words, 0)
         case None => false
         case Some(a) => MatchesToEnd(parts[1..], s, i + |words[a]|))
      case Spaces(least) =>
        var j := SkipSpaces(s, i);
        j - i >= least && MatchesToEnd(parts[1..], s, j)
      case DigitRun(least, most) =>
        var j := DigitRunEnd(s, i, most);
        j - i >= least && MatchesToEnd(parts[1..], s, j)
  }

  /** The whole date cell: `<Weekday>, <Month> d, yyyy` with whitespace runs between the parts. */
  const DatePattern: seq<Part> := [
    OneOf(Weekdays), Char(','), Spaces(1), OneOf(MonthNames), Spaces(1),
    DigitRun(1, 2), Char(','), Spaces(1), DigitRun(4, 4)
  ]

  /** The whole time cell: `h:mm` or `hh:mm`, optional whitespace, then AM or PM. */
  const TimePattern: seq<Part> := [DigitRun(1, 2), Char(':'), DigitRun(2, 2), Spaces(0), OneOf(["am", "pm"])]

  /** The date cell check (case-insensitive). */
  predicate DateCellOk(s: string) {
    MatchesToEnd(DatePattern, s, 0)
  }

  /** The time cell check (case-insensitive). */
  predicate TimeCellOk(s: string) {
    MatchesToEnd(TimePattern, s, 0)
  }

  /** The row a data row yields, if its three cells pass the date, time and release checks. */
  function AcceptRow(row: HtmlRow): Option<RawRow> {
    if |row.cells| != 3 then None
    else
      var dateRaw := ReplaceChar(row.cells[0], Nbsp, ' ');
      var time := NormalizeSpace(ReplaceChar(row.cells[1], Nbsp, ' '));
      var release := NormalizeSpace(ReplaceChar(row.cells[2], Nbsp, ' '));
      if DateCellOk(Strip(dateRaw)) && TimeCellOk(time) && release != [] then
        Some(RawRow(dateRaw, time, release))
      else None
  }

  /** The rows `keep` yields from a run of rows: scanning stops at the first row with a header cell. */
  function ScanRows(rows: seq<HtmlRow>, keep: HtmlRow -> Option<RawRow>): (r: seq<RawRow>)
    ensures |r| <= |rows|
    decreases |rows|
  {
    if rows == [] || rows[0].headers != [] then []
    else
      var a := keep(rows[0]);
      (if a.Some? then [a.value] else []) + ScanRows(rows[1..], keep)
  }

  /** The rows kept after the header row. */
  function BodyRows(rows: seq<HtmlRow>): (r: seq<RawRow>) {
    ScanRows(rows, AcceptRow)
  }

  /** The rows one table contributes: none without a header row, else those after its first header row. */
  function TableRows(t: HtmlTable): seq<RawRow> {
    match FindHeaderFrom(t, 0)
    case None => []
    case Some(h) => BodyRows(t[h + 1..])
  }

  /** The rows of all tables, table by table. */
  function ExtractedRows(tables: seq<HtmlTable>): seq<RawRow>
    decreases |tables|
  {
    if tables == [] then []
    else ExtractedRows(tables[..|tables| - 1]) + TableRows(tables[|tables| - 1])
  }

  /** The header search loop: `header_index`, -1 when there is no header row. */
  method HeaderIndex(trs: HtmlTable) returns (headerIndex: int)
    ensures headerIndex == match FindHeaderFrom(trs, 0) case None => -1 case Some(h) => h
  {
    headerIndex := -1;
    var i := 0;
    while i < |trs|
      invariant 0 <= i <= |trs|
      invariant FindHeaderFrom(trs, 0) == FindHeaderFrom(trs, i)
    {
      if trs[i].headers == [] {
        i := i + 1;
        continue;
      }
      if IsHeaderRow(trs[i]) {
        headerIndex := i;
        return;
      }
      i := i + 1;
    }
  }

  /** The row loop after the header: stops at the first row with a header cell. */
  method ScanBody(body: seq<HtmlRow>) returns (rows: seq<RawRow>)
    ensures rows == BodyRows(body)
  {
    rows := [];
    var k := 0;
    while k < |body|
      invariant 0 <= k <= |body|
      invariant rows + ScanRows(body[k..], AcceptRow) == ScanRows(body, AcceptRow)
    {
      if body[k].headers != [] {
        assert ScanRows(body[k..], AcceptRow) == [];
        return;
      }
      assert body[k..][1..] == body[k + 1..];
      var r := AcceptRow(body[k]);
      if r.Some? {
        rows := rows + [r.value];
      }
      k := k + 1;
    }
  }

  /** `_extract_rows_with_selenium` on the tables of a page. */
  method ExtractRows(tables: seq<HtmlTable>) returns (rows: seq<RawRow>)
    ensures rows == ExtractedRows(tables)
  {
    rows := [];
    for ti := 0 to |tables|
      invariant rows == ExtractedRows(tables[..ti])
    {
      assert tables[..ti + 1][..ti] == tables[..ti];
      var trs := tables[ti];
      var headerIndex := HeaderIndex(trs);
      if headerIndex == -1 {
        assert TableRows(trs) == [];
        continue;
      }
      var body := ScanBody(trs[headerIndex + 1..]);
      assert body == TableRows(trs);
      rows := rows + body;
    }
    assert tables[..|tables|] == tables;
  }

  // ---------------------------------------------------------------------
  // `scrape_archived_schedule`: year page URL and record assembly
  // ---------------------------------------------------------------------

  /** The fallback URL of a year's archive page. */
  function ArchiveYearUrl(year: int): string {
    "https://www.bls.gov/bls/schedule/archives/all_" + IntToString(year) + "_sched.htm"
  }

  /** The year's digits occur in the link text or in its href. */
  predicate MentionsYear(link: (string, string), year: int) {
    ContainsFrom(link.0, IntToString(year), 0) || ContainsFrom(link.1, IntToString(year), 0)
  }

  /** The index of the first link from `k` on whose text or href contains the year. */
  function FirstYearLink(links: seq<(string, string)>, year: int, k: nat): (r: Option<nat>)
    requires k <= |links|
    ensures r.Some? ==> k <= r.value < |links| && MentionsYear(links[r.value], year)
    ensures r.Some? ==> forall j :: k <= j < r.value ==> !MentionsYear(links[j], year)
    ensures r.None? ==> forall j :: k <= j < |links| ==> !MentionsYear(links[j], year)
    decreases |links| - k
  {
    if k == |links| then None
    else if MentionsYear(links[k], year) then Some(k)
    else
      var r := FirstYearLink(links, year, k + 1);
      assert r.Some? ==> forall j :: k <= j < r.value ==> j == k || !MentionsYear(links[j], year);
      r
  }

  /** `candidate`: the href of the first matching link when it is non-empty, else the fallback URL. */
  function YearPageUrl(links: seq<(string, string)>, year: int): string {
    match FirstYearLink(links, year, 0)
    case Some(j) => if links[j].1 != "" then links[j].1 else ArchiveYearUrl(year)
    case None => ArchiveYearUrl(year)
  }

  /** The candidate loop of `scrape_archived_schedule` over the (text, href) items of `text_to_href`. */
  method ChooseYearUrl(links: seq<(string, string)>, year: int) returns (candidate: string)
    ensures candidate == YearPageUrl(links, year)
  {
    candidate := "";
    var k := 0;
    while k < |links|
      invariant 0 <= k <= |links|
      invariant FirstYearLink(links, year, 0) == FirstYearLink(links, year, k)
    {
      if MentionsYear(links[k], year) {
        candidate := links[k].1;
        break;
      }
      k := k + 1;
    }
    if candidate == "" {
      candidate := ArchiveYearUrl(year);
    }
  }

  /** What the browser shows after opening a year page: its final URL and its tables. */
  datatype YearPage = YearPage(currentUrl: string, tables: seq<HtmlTable>)

  /** One scraped record, fields in the source's column order. */
  datatype ScrapedRecord = ScrapedRecord(
    date: string,
    time: string,
    releaseTitle: string,
    periodYear: Option<int>,
    periodMonth: Option<int>,
    periodQuarter: Option<int>,
    sourceYearPage: int,
    yearPageUrl: string)

  /** The record of one accepted row. */
  function RecordOf(row: RawRow, year: int, url: string): ScrapedRecord {
    var parts := ParseReleaseText(row.releaseRaw);
    ScrapedRecord(row.dateRaw, row.time, parts.title,
                  parts.period.year, parts.period.month, parts.period.quarter, year, url)
  }

  /** The records of a page's rows, one per row, in row order. */
  function PageRecords(rows: seq<RawRow>, year: int, url: string): (r: seq<ScrapedRecord>)
    ensures |r| == |rows|
    ensures forall i :: 0 <= i < |rows| ==>
      r[i].date == rows[i].dateRaw && r[i].time == rows[i].time &&
      r[i].sourceYearPage == year && r[i].yearPageUrl == url
    ensures forall i :: 0 <= i < |rows| ==>
      var parts := ParseReleaseText(rows[i].releaseRaw);
      r[i].releaseTitle == parts.title && r[i].periodYear == parts.period.year &&
      r[i].periodMonth == parts.period.month && r[i].periodQuarter == parts.period.quarter
  {
    seq(|rows|, i requires 0 <= i < |rows| => RecordOf(rows[i], year, url))
  }

  /** The records of one year: its page is the one opened at the chosen URL. */
  function YearRecords(links: seq<(string, string)>, browse: string -> YearPage, year: int): seq<ScrapedRecord> {
    var page := browse(YearPageUrl(links, year));
    PageRecords(ExtractedRows(page.tables), year, page.currentUrl)
  }

  /** The records of all years, year by year. */
  function ScrapeRecords(years: seq<int>, links: seq<(string, string)>, browse: string -> YearPage): seq<ScrapedRecord>
    decreases |years|
  {
    if years == [] then []
    else ScrapeRecords(years[..|years| - 1], links, browse) + YearRecords(links, browse, years[|years| - 1])
  }

  /**
   * `scrape_archived_schedule` (JSON output): `links` are the (text, href)
   * items of `text_to_href`, and `browse` opens a URL (choosing List View
   * where offered) and returns the resulting page.
   */
  method ScrapeArchivedSchedule(years: seq<int>, links: seq<(string, string)>, browse: string -> YearPage)
    returns (records: seq<ScrapedRecord>)
    ensures records == ScrapeRecords(years, links, browse)
  {
    records := [];
    for n := 0 to |years|
      invariant records == ScrapeRecords(years[..n], links, browse)
    {
      assert years[..n + 1][..n] == years[..n];
      var y := years[n];
      var candidate := ChooseYearUrl(links, y);
      var page := browse(candidate);
      var recordRows := ExtractRows(page.tables);
      var yearRecords := BuildRecords(recordRows, y, page.currentUrl);
      records := records + yearRecords;
    }
    assert years[..|years|] == years;
  }

  /** The record loop of one year page. */
  method BuildRecords(recordRows: seq<RawRow>, y: int, url: string) returns (records: seq<ScrapedRecord>)
    ensures records == PageRecords(recordRows, y, url)
  {
    records := AppendEach(recordRows, row => RecordOf(row, y, url));
  }

  /** The append loop shared by the record builder: `f` of each row, in row order. */
  method AppendEach(rows: seq<RawRow>, f: RawRow -> ScrapedRecord) returns (out: seq<ScrapedRecord>)
    ensures |out| == |rows|
    ensures forall i :: 0 <= i < |rows| ==> out[i] == f(rows[i])
  {
    out := [];
    for k := 0 to |rows|
      invariant |out| == k
      invariant forall i :: 0 <= i < k ==> out[i] == f(rows[i])
    {
      out := out + [f(rows[k])];
    }
  }
}
