/**
 * The parser for hand-saved release-schedule text (bls_sdk/manual_parser.py):
 * each line `<title>  <Mon> <day>[, <year>]  <h[:mm]> AM|PM` becomes one
 * schedule record, and a batch of per-year files is their concatenation.
 *
 * Every regular expression of the source is a named, hand-written matcher
 * below (`...At` tests one start position, `Find...From` is `re.search`,
 * the leftmost start position).
 */
module ManualParser {
  import opened Wrappers
  import opened Text

  // ---------------------------------------------------------------------
  // Tables
  // ---------------------------------------------------------------------

  /** `_MONTH_TO_NUM`: full names, abbreviations, and abbreviations with a period. */
  const MonthToNum: map<string, nat> := map[
    "january" := 1, "jan" := 1, "jan." := 1,
    "february" := 2, "feb" := 2, "feb." := 2,
    "march" := 3, "mar" := 3, "mar." := 3,
    "april" := 4, "apr" := 4, "apr." := 4,
    "may" := 5,
    "june" := 6, "jun" := 6, "jun." := 6,
    "july" := 7, "jul" := 7, "jul." := 7,
    "august" := 8, "aug" := 8, "aug." := 8,
    "september" := 9, "sep" := 9, "sep." := 9, "sept" := 9, "sept." := 9,
    "october" := 10, "oct" := 10, "oct." := 10,
    "november" := 11, "nov" := 11, "nov." := 11,
    "december" := 12, "dec" := 12, "dec." := 12
  ]

  /**
   * The month alternatives of the date pattern in the order the regex engine
   * tries them: each `Xxx\.?` gives its form with the period first.
   */
  const DateMonthForms: seq<string> := [
    "jan.", "jan", "feb.", "feb", "mar.", "mar", "apr.", "apr", "may",
    "jun.", "jun", "jul.", "jul", "aug.", "aug", "sep.", "sep", "sept.", "sept",
    "oct.", "oct", "nov.", "nov", "dec.", "dec"
  ]

  /** The month alternatives of the `, <Month> <YYYY>` title tail, in order. */
  const FullMonthNames: seq<string> := [
    "january", "february", "march", "april", "may", "june", "july",
    "august", "september", "october", "november", "december"
  ]

  /** The ordinal words of the `, <Quarter> Quarter <YYYY>` title tail; quarter = index + 1. */
  const QuarterWords: seq<string> := ["first", "second", "third", "fourth"]

  lemma MonthNumbersInRange()
    ensures forall w :: w in MonthToNum ==> 1 <= MonthToNum[w] <= 12
  {
  }

  /** Every month text either pattern can capture, once lower-cased, is a key of `_MONTH_TO_NUM`. */
  lemma MonthFormsInTable()
    ensures forall a :: 0 <= a < |DateMonthForms| ==> DateMonthForms[a] in MonthToNum
    ensures forall a :: 0 <= a < |FullMonthNames| ==> FullMonthNames[a] in MonthToNum
  {
  }

  // ---------------------------------------------------------------------
  // Time: \b(\d{1,2})(?::(\d{2}))?\s*(a\.?m\.?|p\.?m\.?)\b, case-insensitive
  // ---------------------------------------------------------------------

  /** The groups of a time match: hour, minutes (0 when absent), and 'a' or 'p'. */
  datatype TimeMatch = TimeMatch(hour: nat, minute: nat, meridiem: char)

  /** The time pattern tried at start position `i` (with the regex engine's backtracking resolved). */
  function TimeMatchAt(s: string, i: nat): (r: Option<TimeMatch>)
    requires i <= |s|
    ensures r.Some? ==> r.value.hour < 100 && r.value.minute < 100 && r.value.meridiem in {'a', 'p'}
    ensures r.Some? ==> i < |s| && IsDigit(s[i]) && WordBoundary(s, i)
  {
    if !(i < |s| && IsDigit(s[i]) && WordBoundary(s, i)) then None
    else
      var hEnd := if i + 1 < |s| && IsDigit(s[i + 1]) then i + 2 else i + 1;
      var hasColon := hEnd < |s| && s[hEnd] == ':';
      if hasColon && !(hEnd + 3 <= |s| && IsDigit(s[hEnd + 1]) && IsDigit(s[hEnd + 2])) then None
      else
        var minute := if hasColon then TwoDigitValue(s[hEnd + 1..hEnd + 3]) else 0;
        var k := SkipSpaces(s, if hasColon then hEnd + 3 else hEnd);
        if !(k < |s| && LowerChar(s[k]) in {'a', 'p'}) then None
        else
          var p := if k + 1 < |s| && s[k + 1] == '.' then k + 2 else k + 1;
          if !(p < |s| && LowerChar(s[p]) == 'm') then None
          else
            var q := p + 1;
            // `\.?` then `\b`: a final period is taken only when a word character
            // follows it; otherwise the boundary after `m` is used.
            if (q < |s| && s[q] == '.') || WordBoundary(s, q) then
              DigitsBelow(s[i..hEnd], 2);
              Some(TimeMatch(DecimalValue(s[i..hEnd]), minute, LowerChar(s[k])))
            else None
  }

  /** The search for `_TIME_RE` from position `i`: the leftmost start position of a match. */
  function FindTimeFrom(s: string, i: nat): (r: Option<nat>)
    requires i <= |s|
    ensures r.Some? ==> i <= r.value <= |s| && TimeMatchAt(s, r.value).Some?
    ensures r.Some? ==> forall q :: i <= q < r.value ==> TimeMatchAt(s, q).None?
    ensures r.None? ==> forall q :: i <= q <= |s| ==> TimeMatchAt(s, q).None?
    decreases |s| - i
  {
    if TimeMatchAt(s, i).Some? then Some(i)
    else if i == |s| then None
    else
      var r := FindTimeFrom(s, i + 1);
      assert r.Some? ==> forall q :: i <= q < r.value ==> q == i || TimeMatchAt(s, q).None?;
      r
  }

  /** The hour on a 24-hour clock for an hour written with AM or PM. */
  function To24Hour(hour: nat, meridiem: char): nat {
    if meridiem == 'a' then (if hour == 12 then 0 else hour)
    else (if hour != 12 then hour + 12 else hour)
  }

  /** `f"{h:02d}:{mins:02d}"`. */
  function ClockText(hour: nat, minute: nat): (r: string)
    ensures |r| >= 5
  {
    FormatInt(hour, 2) + ":" + FormatInt(minute, 2)
  }

  /** `_normalize_time_24h`: the leftmost time on the text as `HH:MM`, or None. */
  function NormalizeTime24h(text: string): (r: Option<string>)
    ensures r.Some? ==> |r.value| >= 5
  {
    var s := ReplaceChar(text, Nbsp, ' ');
    match FindTimeFrom(s, 0)
    case None => None
    case Some(p) =>
      var m := TimeMatchAt(s, p).value;
      Some(ClockText(To24Hour(m.hour, m.meridiem), m.minute))
  }

  // ---------------------------------------------------------------------
  // Date: (Jan\.?|...|Dec\.?)\s+(\d{1,2})(?:,\s*(\d{4}))?, case-insensitive
  // ---------------------------------------------------------------------

  /** The groups of a date match: month number, day, and the optional explicit year. */
  datatype DateMatch = DateMatch(month: nat, day: nat, year: Option<nat>)

  /** Whitespace, a one- or two-digit day and an optional comma-separated four-digit year at `e`. */
  function DayYearAt(s: string, e: nat): (r: Option<(nat, Option<nat>)>)
    requires e <= |s|
    ensures r.Some? ==> r.value.0 < 100 && (r.value.1.Some? ==> r.value.1.value < 10000)
  {
    if !(e < |s| && IsSpace(s[e])) then None
    else
      var d := SkipSpaces(s, e);
      if !(d < |s| && IsDigit(s[d])) then None
      else
        var dEnd := if d + 1 < |s| && IsDigit(s[d + 1]) then d + 2 else d + 1;
        var year :=
          if dEnd < |s| && s[dEnd] == ',' then
            var y := SkipSpaces(s, dEnd + 1);
            if y + 4 <= |s| && AllDigits(s[y..y + 4]) then
              DigitsBelow(s[y..y + 4], 4);
              Some(DecimalValue(s[y..y + 4]))
            else None
          else None;
        DigitsBelow(s[d..dEnd], 2);
        Some((DecimalValue(s[d..dEnd]), year))
  }

  function TwoDigitValue(s: string): (r: nat)
    requires AllDigits(s) && |s| == 2
    ensures r < 100
  {
    DigitsBelow(s, 2);
    DecimalValue(s)
  }

  /** At most two (four) digits denote a number below 100 (10000). */
  lemma DigitsBelow(s: string, w: nat)
    requires AllDigits(s) && |s| <= w && w in {2, 4}
    ensures w == 2 ==> DecimalValue(s) < 100
    ensures w == 4 ==> DecimalValue(s) < 10000
  {
    DecimalValueBound(s);
    Pow10Monotone(|s|, w);
    assert Pow10(2) == 100;
    assert Pow10(4) == 10000;
  }

  lemma {:induction false} Pow10Monotone(a: nat, b: nat)
    requires a <= b
    ensures Pow10(a) <= Pow10(b)
    decreases b
  {
    if a < b { Pow10Monotone(a, b - 1); }
  }

  /** The month forms from number `a` on, tried at `i` in the pattern's order. */
  function DateAltFrom(s: string, i: nat, a: nat): (r: Option<DateMatch>)
    requires i <= |s| && a <= |DateMonthForms|
    ensures r.Some? ==> 1 <= r.value.month <= 12 && r.value.day < 100
    ensures r.Some? ==> r.value.year.Some? ==> r.value.year.value < 10000
    decreases |DateMonthForms| - a
  {
    if a == |DateMonthForms| then None
    else
      var form := DateMonthForms[a];
      var e := i + |form|;
      if MatchesAt(s, i, form) && DayYearAt(s, e).Some? then
        MonthFormsInTable();
        MonthNumbersInRange();
        var dy := DayYearAt(s, e).value;
        Some(DateMatch(MonthToNum[Lower(s[i..e])], dy.0, dy.1))
      else DateAltFrom(s, i, a + 1)
  }

  /** The date pattern tried at start position `i`. */
  function DateMatchAt(s: string, i: nat): (r: Option<DateMatch>)
    requires i <= |s|
    ensures r.Some? ==> 1 <= r.value.month <= 12 && r.value.day < 100
    ensures r.Some? ==> r.value.year.Some? ==> r.value.year.value < 10000
  {
    DateAltFrom(s, i, 0)
  }

  /** `re.search` of the date pattern from position `i`. */
  function FindDateFrom(s: string, i: nat): (r: Option<nat>)
    requires i <= |s|
    ensures r.Some? ==> i <= r.value <= |s| && DateMatchAt(s, r.value).Some?
    ensures r.Some? ==> forall q :: i <= q < r.value ==> DateMatchAt(s, q).None?
    ensures r.None? ==> forall q :: i <= q <= |s| ==> DateMatchAt(s, q).None?
    decreases |s| - i
  {
    if DateMatchAt(s, i).Some? then Some(i)
    else if i == |s| then None
    else
      var r := FindDateFrom(s, i + 1);
      assert r.Some? ==> forall q :: i <= q < r.value ==> q == i || DateMatchAt(s, q).None?;
      r
  }

  /** The leftmost date match on `s`, if any. */
  function SearchDate(s: string): Option<DateMatch> {
    match FindDateFrom(s, 0)
    case None => None
    case Some(p) => DateMatchAt(s, p)
  }

  /** `f"{year:04d}-{month:02d}-{day:02d}"`. */
  function IsoDate(year: int, month: nat, day: nat): string {
    FormatInt(year, 4) + "-" + FormatInt(month, 2) + "-" + FormatInt(day, 2)
  }

  // ---------------------------------------------------------------------
  // Notes: (\s*\([^)]+\)\s*)+$ and \(([^)]+)\)
  // ---------------------------------------------------------------------

  /** The first index at or after `from` that holds `c`. */
  function IndexOf(s: string, c: char, from: nat): (r: Option<nat>)
    requires from <= |s|
    ensures r.Some? ==> from <= r.value < |s| && s[r.value] == c
    ensures forall k :: from <= k < (if r.Some? then r.value else |s|) ==> s[k] != c
    decreases |s| - from
  {
    if from == |s| then None
    else if s[from] == c then Some(from)
    else IndexOf(s, c, from + 1)
  }

  /** One non-empty parenthesised group, after optional whitespace, at the start of `w`: the index just past its `)`. */
  function GroupEnd(w: string): (r: Option<nat>)
    ensures r.Some? ==> 0 < r.value <= |w|
  {
    var j := SkipSpaces(w, 0);
    if j < |w| && w[j] == '(' then
      match IndexOf(w, ')', j + 1)
      case Some(c) => if c >= j + 2 then Some(c + 1) else None
      case None => None
    else None
  }

  /** `w` is one or more parenthesised groups with optional whitespace around each, and nothing else. */
  predicate NotesRun(w: string)
    decreases |w|
  {
    match GroupEnd(w)
    case None => false
    case Some(e) => SkipSpaces(w, e) == |w| || NotesRun(w[e..])
  }

  /** The notes pattern matches `title` from position `q` to the end. */
  predicate NotesRunAt(title: string, q: nat)
    requires q <= |title|
  {
    NotesRun(title[q..])
  }

  /** `re.search` of the notes pattern from `i`: the start of the maximal run of trailing groups. */
  function FindNotesFrom(title: string, i: nat): (r: Option<nat>)
    requires i <= |title|
    ensures r.Some? ==> i <= r.value <= |title| && NotesRunAt(title, r.value)
    ensures r.Some? ==> forall q :: i <= q < r.value ==> !NotesRunAt(title, q)
    ensures r.None? ==> forall q :: i <= q <= |title| ==> !NotesRunAt(title, q)
    decreases |title| - i
  {
    if NotesRunAt(title, i) then Some(i)
    else if i == |title| then None
    else
      var r := FindNotesFrom(title, i + 1);
      assert r.Some? ==> forall q :: i <= q < r.value ==> q == i || !NotesRunAt(title, q);
      r
  }

  /** The texts inside the parenthesised groups of `w[p..]`, left to right. */
  function FindAllGroups(w: string, p: nat): seq<string>
    requires p <= |w|
    decreases |w| - p
  {
    if p == |w| then []
    else if w[p] == '(' then
      match IndexOf(w, ')', p + 1)
      case Some(c) =>
        if c >= p + 2 then [w[p + 1..c]] + FindAllGroups(w, c + 1) else FindAllGroups(w, p + 1)
      case None => FindAllGroups(w, p + 1)
    else FindAllGroups(w, p + 1)
  }

  /** One inner text as a note token: stripped, periods removed, `P`/`R` or title case. */
  function NoteToken(raw: string): (r: Option<string>)
    ensures r.Some? <==> RemoveChar(Strip(raw), '.') != []
    ensures r.Some? ==> r.value != [] && '.' !in r.value
  {
    var t := RemoveChar(Strip(raw), '.');
    if t == [] then None
    else if Lower(t) == "p" || Lower(t) == "r" then Some(Upper(t))
    else Some(Title(t))
  }

  /** The tokens of a sequence of inner texts, in order, empty ones skipped. */
  function NoteTokens(inner: seq<string>): seq<string>
    decreases |inner|
  {
    if inner == [] then []
    else
      var last := NoteToken(inner[|inner| - 1]);
      NoteTokens(inner[..|inner| - 1]) + (if last.Some? then [last.value] else [])
  }

  /** The tokens joined by a comma and a space, or None when there are none. */
  function JoinNotes(tokens: seq<string>): Option<string> {
    var j := Join(tokens, ", ");
    if j == [] then None else Some(j)
  }

  /** `_strip_notes`: the title without its trailing groups, and the normalised notes. */
  function SplitNotes(title: string): (string, Option<string>) {
    match FindNotesFrom(title, 0)
    case None => (Strip(title), None)
    case Some(i) => (Strip(title[..i]), JoinNotes(NoteTokens(FindAllGroups(title[i..], 0))))
  }

  /** `_strip_notes`, with the token loop of the source. */
  method StripNotes(title: string) returns (clean: string, notes: Option<string>)
    ensures (clean, notes) == SplitNotes(title)
  {
    var start := FindNotesFrom(title, 0);
    if start.None? {
      return Strip(title), None;
    }
    var inner := FindAllGroups(title[start.value..], 0);
    var tokens: seq<string> := [];
    var k := 0;
    while k < |inner|
      invariant 0 <= k <= |inner|
      invariant tokens == NoteTokens(inner[..k])
    {
      var t := RemoveChar(Strip(inner[k]), '.');
      assert inner[..k + 1][..k] == inner[..k];
      if t == [] {
        k := k + 1;
        continue;
      }
      if Lower(t) == "p" || Lower(t) == "r" {
        tokens := tokens + [Upper(t)];
      } else {
        tokens := tokens + [Title(t)];
      }
      k := k + 1;
    }
    assert inner[..k] == inner;
    clean := Strip(title[..start.value]);
    notes := JoinNotes(tokens);
  }

  // ---------------------------------------------------------------------
  // Period tails of the title
  // ---------------------------------------------------------------------

  datatype TailKind = QuarterTail | MonthTail | YearTail

  /** What a tail pattern captured: the quarter (1-4) or month (1-12) if any, and the year. */
  datatype TailMatch = TailMatch(quarter: Option<nat>, month: Option<nat>, year: nat)

  /** Whitespace (when `needSpace`), four digits and trailing whitespace from `k` to the end of `s`: the year. */
  function SpaceYearEnd(s: string, k: nat, needSpace: bool): (r: Option<nat>)
    requires k <= |s|
    ensures r.Some? ==> r.value < 10000
  {
    if needSpace && !(k < |s| && IsSpace(s[k])) then None
    else
      var y := SkipSpaces(s, k);
      if y + 4 <= |s| && AllDigits(s[y..y + 4]) && SkipSpaces(s, y + 4) == |s| then
        DigitsBelow(s[y..y + 4], 4);
        Some(DecimalValue(s[y..y + 4]))
      else None
  }

  /** An ordinal quarter word, `Quarter` and a four-digit year from `j` to the end. */
  function QuarterTailAt(t: string, j: nat): (r: Option<TailMatch>)
    requires j <= |t|
    ensures r.Some? ==> r.value.quarter.Some? && r.value.month.None?
    ensures r.Some? ==> 1 <= r.value.quarter.value <= 4 && r.value.year < 10000
  {
    match WordAt(t, j, QuarterWords, 0)
    case None => None
    case Some(a) =>
      var k := j + |QuarterWords[a]|;
      if !(k < |t| && IsSpace(t[k])) then None
      else
        var k2 := SkipSpaces(t, k);
        if !MatchesAt(t, k2, "quarter") then None
        else
          match SpaceYearEnd(t, k2 + 7, true)
          case Some(y) => Some(TailMatch(Some(a + 1), None, y))
          case None => None
  }

  /** A full month name and a four-digit year from `j` to the end. */
  function MonthTailAt(t: string, j: nat): (r: Option<TailMatch>)
    requires j <= |t|
    ensures r.Some? ==> r.value.quarter.None? && r.value.month.Some?
    ensures r.Some? ==> 1 <= r.value.month.value <= 12 && r.value.year < 10000
  {
    match WordAt(t, j, FullMonthNames, 0)
    case None => None
    case Some(a) =>
      match SpaceYearEnd(t, j + |FullMonthNames[a]|, true)
      case Some(y) =>
        var name := Lower(t[j..j + |FullMonthNames[a]|]);
        assert name == FullMonthNames[a];
        FullMonthInTable(a);
        Some(TailMatch(None, Some(MonthToNum[name]), y))
      case None => None
  }

  /** A full month name is a key of `_MONTH_TO_NUM` with a month number. */
  lemma FullMonthInTable(a: nat)
    requires a < |FullMonthNames|
    ensures FullMonthNames[a] in MonthToNum && 1 <= MonthToNum[FullMonthNames[a]] <= 12
  {
    MonthFormsInTable();
    MonthNumbersInRange();
  }

  /**
   * The three tails tried at a comma at `i`, each running to the end of the
   * title: an ordinal quarter with its year, a full month with its year, or
   * a bare four-digit year.
   */
  function TailAt(kind: TailKind, t: string, i: nat): (r: Option<TailMatch>)
    requires i <= |t|
    ensures r.Some? ==> i < |t| && t[i] == ','
    ensures r.Some? ==> (r.value.quarter.Some? <==> kind == QuarterTail)
    ensures r.Some? ==> (r.value.month.Some? <==> kind == MonthTail)
    ensures r.Some? && r.value.quarter.Some? ==> 1 <= r.value.quarter.value <= 4
    ensures r.Some? && r.value.month.Some? ==> 1 <= r.value.month.value <= 12
    ensures r.Some? ==> r.value.year < 10000
  {
    if !(i < |t| && t[i] == ',') then None
    else
      var j := SkipSpaces(t, i + 1);
      match kind
      case QuarterTail => QuarterTailAt(t, j)
      case MonthTail => MonthTailAt(t, j)
      case YearTail =>
        match SpaceYearEnd(t, j, false)
        case Some(y) => Some(TailMatch(None, None, y))
        case None => None
  }

  /** `re.search` of a tail pattern from `i`. */
  function FindTailFrom(kind: TailKind, t: string, i: nat): (r: Option<nat>)
    requires i <= |t|
    ensures r.Some? ==> i <= r.value < |t| && TailAt(kind, t, r.value).Some?
    ensures r.Some? ==> forall q :: i <= q < r.value ==> TailAt(kind, t, q).None?
    ensures r.None? ==> forall q :: i <= q <= |t| ==> TailAt(kind, t, q).None?
    decreases |t| - i
  {
    if TailAt(kind, t, i).Some? then Some(i)
    else if i == |t| then None
    else
      var r := FindTailFrom(kind, t, i + 1);
      assert r.Some? ==> forall q :: i <= q < r.value ==> q == i || TailAt(kind, t, q).None?;
      r
  }

  /** A reporting period: year, and at most one of month or quarter. */
  datatype Period = Period(year: Option<int>, month: Option<int>, quarter: Option<int>)

  const NoPeriod := Period(None, None, None)

  /** The title before a tail at `start`, without trailing commas and spaces, then stripped. */
  function CutTail(t: string, start: nat): string
    requires start <= |t|
  {
    Strip(RStripChars(t[..start], {',', ' '}))
  }

  function PeriodOf(m: TailMatch): Period {
    Period(Some(m.year), if m.month.Some? then Some(m.month.value) else None,
           if m.quarter.Some? then Some(m.quarter.value) else None)
  }

  /** The period tail of a manual title, tried quarter first, then month, then bare year. */
  function ExtractTailPeriod(t: string): (r: (string, Period))
    ensures !(r.1.month.Some? && r.1.quarter.Some?)
    ensures r.1.quarter.Some? ==> 1 <= r.1.quarter.value <= 4
    ensures r.1.month.Some? ==> 1 <= r.1.month.value <= 12
  {
    match FindTailFrom(QuarterTail, t, 0)
    case Some(p) => (CutTail(t, p), PeriodOf(TailAt(QuarterTail, t, p).value))
    case None =>
      match FindTailFrom(MonthTail, t, 0)
      case Some(p) => (CutTail(t, p), PeriodOf(TailAt(MonthTail, t, p).value))
      case None =>
        match FindTailFrom(YearTail, t, 0)
        case Some(p) => (CutTail(t, p), PeriodOf(TailAt(YearTail, t, p).value))
        case None => (t, NoPeriod)
  }

  // ---------------------------------------------------------------------
  // Lines and records
  // ---------------------------------------------------------------------

  /** One schedule record, fields in the source's column order. */
  datatype ManualRecord = ManualRecord(
    date: string,
    time: string,
    releaseTitle: string,
    periodYear: Option<int>,
    periodMonth: Option<int>,
    periodQuarter: Option<int>,
    notes: Option<string>,
    sourceYearPage: int,
    yearPageUrl: Option<string>)

  /** The length of the field separator (two or more whitespace characters, or a run of tabs) at `p`, or 0. */
  function SeparatorAt(s: string, p: nat): (r: nat)
    requires p < |s|
    ensures p + r <= |s|
    ensures r > 0 ==> (forall i :: p <= i < p + r ==> IsSpace(s[i])) && (p + r < |s| ==> !IsSpace(s[p + r]))
    ensures r == 1 ==> s[p] == '\t'
    ensures r != 1 ==> r == 0 || r >= 2
    ensures r == 0 ==> s[p] != '\t' && !(IsSpace(s[p]) && p + 1 < |s| && IsSpace(s[p + 1]))
  {
    if IsSpace(s[p]) && p + 1 < |s| && IsSpace(s[p + 1]) then SkipSpaces(s, p) - p
    else if s[p] == '\t' then 1
    else 0
  }

  /** The fields of `s[start..]` between separators, scanning from `p`. */
  function SplitFrom(s: string, start: nat, p: nat): (r: seq<string>)
    requires start <= p <= |s|
    ensures |r| >= 1
    decreases |s| - p
  {
    if p == |s| then [s[start..]]
    else
      var n := SeparatorAt(s, p);
      if n > 0 then [s[start..p]] + SplitFrom(s, p + n, p + n)
      else SplitFrom(s, start, p + 1)
  }

  /** `re.split(r"\s{2,}|\t+", s)`. */
  function SplitFields(s: string): seq<string> {
    SplitFrom(s, 0, 0)
  }

  /** The stripped line is empty or starts with `release name` (case-insensitive). */
  predicate IsSkippedLine(raw: string) {
    var trimmed := Strip(raw);
    trimmed == [] || StartsWith(Lower(trimmed), "release name")
  }

  /** The date of a line: searched in the second field first, then on the whole line. */
  function LineDate(raw: string, fields: seq<string>): Option<DateMatch>
    requires |fields| >= 2
  {
    var inField := SearchDate(Strip(fields[1]));
    if inField.Some? then inField else SearchDate(raw)
  }

  /** The release title of a line after notes, the `The ` prefix and the period tail. */
  function TitleParts(title: string): (string, Period, Option<string>) {
    var (noteless, notes) := SplitNotes(title);
    var named := if StartsWith(noteless, "The Employment Situation") then noteless[4..] else noteless;
    var (clean, period) := ExtractTailPeriod(named);
    (clean, period, notes)
  }

  /** The record the loop of `parse_manual_schedule_txt` appends for one line, if any. */
  function ParseLine(line: string, sourceYear: int): Option<ManualRecord> {
    var raw := ReplaceChar(line, Nbsp, ' ');
    if IsSkippedLine(raw) then None
    else
      var fields := SplitFields(Strip(raw));
      if |fields| < 2 then None
      else
        match LineDate(raw, fields)
        case None => None
        case Some(dm) => Some(LineRecord(raw, Strip(fields[0]), dm, sourceYear))
  }

  /** The record of a line with its date found: ISO date, 24-hour time or "", cleaned title and period. */
  function LineRecord(raw: string, title: string, dm: DateMatch, sourceYear: int): ManualRecord {
    var parts := TitleParts(title);
    ManualRecord(
      IsoDate(if dm.year.Some? then dm.year.value else sourceYear, dm.month, dm.day),
      NormalizeTime24h(raw).GetOr(""),
      parts.0, parts.1.year, parts.1.month, parts.1.quarter, parts.2,
      sourceYear, None)
  }

  /** The records of a sequence of lines, in line order. */
  function ParseLines(lines: seq<string>, sourceYear: int): seq<ManualRecord>
    decreases |lines|
  {
    if lines == [] then []
    else
      var last := ParseLine(lines[|lines| - 1], sourceYear);
      ParseLines(lines[..|lines| - 1], sourceYear) + (if last.Some? then [last.value] else [])
  }

  /** The title clean-up steps of the loop of `parse_manual_schedule_txt`. */
  method CleanTitle(title: string) returns (cleanTitle: string, period: Period, notes: Option<string>)
    ensures (cleanTitle, period, notes) == TitleParts(title)
  {
    cleanTitle, notes := StripNotes(title);
    if StartsWith(cleanTitle, "The Employment Situation") {
      cleanTitle := cleanTitle[4..];
    }
    var (tailless, p) := ExtractTailPeriod(cleanTitle);
    cleanTitle, period := tailless, p;
  }

  /** The body of the loop of `parse_manual_schedule_txt` for one line. */
  method ParseOneLine(line: string, sourceYear: int) returns (r: Option<ManualRecord>)
    ensures r == ParseLine(line, sourceYear)
  {
    var raw := ReplaceChar(line, Nbsp, ' ');
    if IsSkippedLine(raw) {
      return None;
    }
    var parts := SplitFields(Strip(raw));
    if |parts| < 2 {
      return None;
    }
    var title := Strip(parts[0]);
    var timePart := NormalizeTime24h(raw).GetOr("");
    var m := SearchDate(Strip(parts[1]));
    if m.None? {
      m := SearchDate(raw);
    }
    if m.None? {
      return None;
    }
    var year: int := if m.value.year.Some? then m.value.year.value else sourceYear;
    var date := IsoDate(year, m.value.month, m.value.day);
    var cleanTitle, period, notes := CleanTitle(title);
    r := Some(ManualRecord(date, timePart, cleanTitle, period.year, period.month,
                           period.quarter, notes, sourceYear, None));
    assert m == LineDate(raw, parts);
    assert r == Some(LineRecord(raw, title, m.value, sourceYear));
  }

  /** `parse_manual_schedule_txt` on the lines of a file (JSON output). */
  method ParseManualSchedule(lines: seq<string>, sourceYear: int) returns (records: seq<ManualRecord>)
    ensures records == ParseLines(lines, sourceYear)
  {
    records := [];
    for k := 0 to |lines|
      invariant records == ParseLines(lines[..k], sourceYear)
    {
      assert lines[..k + 1][..k] == lines[..k];
      var r := ParseOneLine(lines[k], sourceYear);
      if r.Some? {
        records := records + [r.value];
      }
    }
    assert lines[..|lines|] == lines;
  }

  /** The records of the years' files, in year order; a year without a file adds nothing. */
  function BatchRecords(years: seq<int>, files: map<int, seq<string>>): seq<ManualRecord>
    decreases |years|
  {
    if years == [] then []
    else
      var y := years[|years| - 1];
      BatchRecords(years[..|years| - 1], files) + (if y in files then ParseLines(files[y], y) else [])
  }

  /** `parse_manual_batch`: `files` maps a year to the lines of `<year>.txt` when that file exists. */
  method ParseManualBatch(years: seq<int>, files: map<int, seq<string>>) returns (all: seq<ManualRecord>)
    ensures all == BatchRecords(years, files)
  {
    all := [];
    for k := 0 to |years|
      invariant all == BatchRecords(years[..k], files)
    {
      assert years[..k + 1][..k] == years[..k];
      var y := years[k];
      if y !in files {
        continue;
      }
      var records := ParseManualSchedule(files[y], y);
      all := all + records;
    }
    assert years[..|years|] == years;
  }
}
