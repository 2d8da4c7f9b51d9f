# bls-sdk release-schedule, QCEW and Public Data core in Dafny

This project models the deterministic core of the `bls_sdk` Python package, a
client for the U.S. Bureau of Labor Statistics data services, and proves
properties of the model. It covers four source files.

- **Manual schedule parser** (`bls_sdk/manual_parser.py`, module
  `ManualParser`, properties in `ManualFacts`). Each line of a hand-saved
  release schedule becomes one record:
  - the line is split into fields;
  - an abbreviated month and day, with an optional year, becomes an ISO date;
  - the leftmost 12-hour time on the line becomes `HH:MM`;
  - trailing parenthesised notes are removed from the title and normalised;
  - a leading `The ` is dropped from `The Employment Situation`;
  - a trailing `, <Quarter> Quarter YYYY`, `, <Month> YYYY` or `, YYYY`
    period is cut off the title.

  A batch of per-year files gives the concatenation of their records. Each
  regular expression is a hand-written matcher: `...At` tests one start
  position and `Find...From` returns the leftmost one.
- **Archived release-schedule scraper** (`bls_sdk/release_schedule.py`,
  module `ReleaseSchedule`, properties in `ReleaseFacts`):
  - the release-description parser, which splits at the first ` for `,
    removes one trailing tag, and reads the period by precedence: quarter,
    month, Annual/Biennial, then the first year;
  - header detection and the rules for keeping rows, over tables given as rows of
    header-cell and data-cell texts;
  - the choice of the year-page URL;
  - record assembly, year by year.
- **QCEW helpers** (`bls_sdk/qcew.py`, module `Qcew` with the class
  `QcewClient`, properties in `QcewFacts`):
  - quarter-code normalisation;
  - the five-year window check, with the current year as a parameter;
  - the control flow of the CSV download (validation, the gz retry on 404,
    the empty result, HTTP errors) over an HTTP oracle;
  - area-row filtering;
  - title joins;
  - the per-name title cache. It is a class whose `titlesCache` field the
    methods update, with a ghost log of the names fetched.
- **Public Data client** (`bls_sdk/public_data.py`, module `PublicData`):
  - the request bodies of `get_series` and `get_many_series`;
  - the split of series ids into requests of at most 50 and the in-order
    merge of the returned series, with `post_public_timeseries` as an
    oracle;
  - the query parameters of `get_latest` and `get_popular`;
  - the survey URL;
  - the `list_surveys_list` extraction.

`Text` models the Python string built-ins the core relies on: `strip`,
`split`, `" ".join`, `lower` and `title` on ASCII, `replace`, and `:0Nd`
formatting with its round trip. `Wrappers` holds `Option` and `Result`.

Some behaviours are absent from the code, and the model follows the code:
- There is no cross-year resolver: the year of a manual date is the explicit
  year or else the source year.
- A batch is not filtered by page year and not de-duplicated.
- Only `release name` header lines are skipped.
- The leftmost time on a line is used, and a line without a time keeps
  `time == ""`.
- The time pattern has no hour range check: `0 am` becomes `00:00`, `13 pm`
  becomes `25:00` and `99 pm` becomes `111:00`.
- No `Indexes` → `Index` rewrite takes place.
- Scraped dates and times stay raw text.
- A period holding a year range takes its first year.
- A scraped record's page URL is the browser's current URL after it opened
  the page, not the candidate link.

## Model

| member | source | states |
|---|---|---|
| ManualParser.MonthNumbersInRange | bls_sdk/manual_parser.py:5-18 | every value of `_MONTH_TO_NUM` (the constant `ManualParser.MonthToNum`: full names, abbreviations and abbreviations with a period) is a month number 1..12 |
| ManualParser.MonthFormsInTable | bls_sdk/manual_parser.py:83-89 | every month spelling the date pattern or the month tail can capture is a key of `ManualParser.MonthToNum`, so the lookup never fails |
| ManualParser.FullMonthInTable | bls_sdk/manual_parser.py:112-114 | a full month name of the tail pattern is a key of the table with a number 1..12 |
| ManualParser.TimeMatchAt | bls_sdk/manual_parser.py:20 | a time match starts on a digit at a word boundary and yields an hour and minutes below 100 and a meridiem `a` or `p` |
| ManualParser.FindTimeFrom | bls_sdk/manual_parser.py:25 | the search returns the leftmost position where the time pattern matches, and None exactly when no position matches |
| ManualParser.NormalizeTime24h | bls_sdk/manual_parser.py:23-37 | `_normalize_time_24h` reads the leftmost time match of the NBSP-replaced text and gives at least five characters; `NormalizeTimeLeftmost` and `NormalizeTimeShape` state which match it reads and its `HH:MM` shape |
| ManualParser.DayYearAt | bls_sdk/manual_parser.py:83 | the day group has at most two digits and the optional year group four |
| ManualParser.DateAltFrom | bls_sdk/manual_parser.py:83 | trying the month alternatives in pattern order yields a month 1..12 from the table, a day below 100 and a year below 10000 |
| ManualParser.DateMatchAt | bls_sdk/manual_parser.py:83 | a date match at one position has a month 1..12, a day below 100 and a year below 10000 |
| ManualParser.FindDateFrom | bls_sdk/manual_parser.py:83-86 | the date search returns the leftmost matching position, and None exactly when none matches |
| ManualParser.SearchDate | bls_sdk/manual_parser.py:83-86 | `re.search` of the date pattern: no match, or the reading of the leftmost match; `SearchDateLeftmost` states both directions |
| ManualParser.IsoDate | bls_sdk/manual_parser.py:92 | `f"{year:04d}-{month:02d}-{day:02d}"`; `IsoDateRoundTrip` states its ten-character shape and that its fields read back |
| ManualParser.FindNotesFrom | bls_sdk/manual_parser.py:42 | the notes search returns the leftmost position from which parenthesised groups run to the end of the title, which is the start of the maximal trailing run |
| ManualParser.NoteToken | bls_sdk/manual_parser.py:48-54 | an inner text gives a token exactly when it is non-empty after stripping and removing periods; the token is non-empty and has no period |
| ManualParser.NoteTokens | bls_sdk/manual_parser.py:46-54 | the kept tokens of the inner texts, in order; `NoteTokensClean` bounds their number and states that each is non-empty without a period |
| ManualParser.JoinNotes | bls_sdk/manual_parser.py:55 | `", ".join(tokens) or None`; `JoinNotesNone` states that non-empty tokens give None exactly when there are none, and `SplitNotesFacts` that notes, when present, are non-empty and have no period |
| ManualParser.SplitNotes | bls_sdk/manual_parser.py:40-56 | `_strip_notes` as a value: the stripped text before the trailing groups and their joined tokens; `SplitNotesFacts` states both cases |
| ManualParser.StripNotes | bls_sdk/manual_parser.py:40-56 | the token loop returns the cleaned title and notes of `SplitNotes` |
| ManualParser.FindAllGroups | bls_sdk/manual_parser.py:45 | `re.findall` of the group texts of the notes run, left to right; `FindAllGroupsShape` states that each is non-empty, has no `)` and is enclosed by a `(...)` of the run |
| ManualFacts.FindAllGroupsShape | bls_sdk/manual_parser.py:45 | every inner text found is non-empty, contains no `)`, and is the text between a `(` and the next `)` of the searched text |
| ManualFacts.JoinNotesNone | bls_sdk/manual_parser.py:55 | non-empty tokens join to None exactly when there are no tokens, and otherwise to their `", "`-join |
| ManualParser.QuarterTailAt | bls_sdk/manual_parser.py:104-108 | a quarter tail sets a quarter 1..4 from the ordinal word, no month, and a four-digit year |
| ManualParser.MonthTailAt | bls_sdk/manual_parser.py:112-115 | a month tail sets a month 1..12 from the table, no quarter, and a four-digit year |
| ManualParser.TailAt | bls_sdk/manual_parser.py:104-120 | a tail starts at a comma; it sets a quarter only for the quarter kind and a month only for the month kind, within their ranges |
| ManualParser.FindTailFrom | bls_sdk/manual_parser.py:104-118 | each tail search returns the leftmost comma where that tail matches up to the end, and None exactly when none does |
| ManualParser.ExtractTailPeriod | bls_sdk/manual_parser.py:99-121 | the extracted period never has both a month and a quarter; a quarter is in 1..4 and a month in 1..12 |
| ManualParser.SplitFrom | bls_sdk/manual_parser.py:73 | splitting on separators scanned from one position always gives at least one field, as `re.split` does |
| ManualParser.SplitFields | bls_sdk/manual_parser.py:73 | `re.split(r"\s{2,}|\t+", s)`; `SplitFieldsShape` and `SplitFieldsNonEmpty` state the round trip and the shape of the fields |
| ManualParser.CleanTitle | bls_sdk/manual_parser.py:94-121 | the title steps (notes, `The ` prefix, period tail) return what `TitleParts` defines |
| ManualParser.TitleParts | bls_sdk/manual_parser.py:94-121 | the cleaned title, period and notes of a title field; the `Tail...`, `ExtractTailKeepsPrefix` and `EmploymentSituationTitle` lemmas state its steps |
| ManualParser.ParseOneLine | bls_sdk/manual_parser.py:68-133 | one pass of the line loop gives the record `ParseLine` defines, or none |
| ManualParser.IsSkippedLine | bls_sdk/manual_parser.py:70-71 | a blank line or one starting with `release name` in any case is skipped; `ParseLineNone` states that it gives no record |
| ManualParser.LineDate | bls_sdk/manual_parser.py:83-88 | the date is searched in the stripped second field first and then on the whole line; `ParseLineNone` states that a line without either gives no record, and `ParseLineDate` how the record's date is built from the match |
| ManualParser.To24Hour | bls_sdk/manual_parser.py:31-36 | the 24-hour hour of an AM or PM reading; `To24HourRules` states each of the four cases and `To24HourRoundTrip` that a reading 1..12 gives an hour below 24 from which it is recovered |
| ManualParser.ParseLine | bls_sdk/manual_parser.py:69-133 | the record of one line, or none; `ParseLineNone` states when there is none, and `ParseLineRecord`, `ParseLineDate` and `ParseLineDateText` what it holds: its title, period and notes come from `TitleParts` of the stripped first field |
| ManualParser.LineRecord | bls_sdk/manual_parser.py:89-133 | the record built from the date match, the title field and the line's time; `ParseLineRecord` states that its title, period and notes are `TitleParts` of the stripped first field and gives its time, source year and URL, and `ParseLineDate` its date |
| ManualParser.ParseLines | bls_sdk/manual_parser.py:67-133 | the records of a file's lines; `ParseLinesAppend` and `ParseLinesShape` state its order and bounds |
| ManualParser.ParseManualSchedule | bls_sdk/manual_parser.py:67-133 | the line loop returns `ParseLines`, the records of the lines in line order |
| ManualParser.ParseManualBatch | bls_sdk/manual_parser.py:163-170 | the year loop returns `BatchRecords`, each year's records in year order, years without a file skipped |
| ManualParser.BatchRecords | bls_sdk/manual_parser.py:163-170 | the records of a list of years; `BatchRecordsAppend` and `BatchRecordsSingle` state that it concatenates each year's records in order |
| ManualFacts.To24HourRules | bls_sdk/manual_parser.py:31-36 | 12 AM is hour 0 and 12 PM stays 12; other PM hours gain 12 and other AM hours are kept |
| ManualFacts.To24HourRoundTrip | bls_sdk/manual_parser.py:28-37 | a 12-hour reading 1..12 with AM or PM converts to an hour below 24 from which the reading is recovered |
| ManualFacts.From24HourRoundTrip | bls_sdk/manual_parser.py:28-36 | every hour of the 24-hour clock is the conversion of exactly one proper 12-hour reading |
| ManualFacts.ClockTextShape | bls_sdk/manual_parser.py:37 | the time text is five characters, two digits, a colon and two digits, and those digits read back as the hour and minutes |
| ManualFacts.NormalizeTimeLeftmost | bls_sdk/manual_parser.py:23-37 | `_normalize_time_24h` is None exactly when the pattern matches nowhere on the NBSP-replaced text; otherwise it is the converted leftmost match |
| ManualFacts.TimeMinutesDefault | bls_sdk/manual_parser.py:29 | a time written without minutes reads as minute 0 |
| ManualFacts.NormalizeTimeShape | bls_sdk/manual_parser.py:28-37 | when the leftmost match has an hour 1..12, the result is a five-character `HH:MM` whose hour is below 24 |
| ManualFacts.IsoDateRoundTrip | bls_sdk/manual_parser.py:92 | the date is ten characters `YYYY-MM-DD`, zero-padded, and its three fields read back as year, month and day |
| ManualFacts.SearchDateLeftmost | bls_sdk/manual_parser.py:83-89 | the date search fails exactly when no position matches; otherwise it reads the leftmost match, with a month 1..12 |
| ManualFacts.NoteTokenFlags | bls_sdk/manual_parser.py:51-52 | `p` and `r` in either case become `P` and `R` |
| ManualFacts.NoteTokensClean | bls_sdk/manual_parser.py:47-54 | there are at most as many tokens as inner texts, and each is non-empty and has no period |
| ManualFacts.SplitNotesFacts | bls_sdk/manual_parser.py:42-56 | with no trailing groups the title is only stripped and the notes are None; when a run of trailing groups exists, the title is the stripped text before the leftmost start of a run, and the notes are the joined tokens of that run's groups: None exactly when no token is left (so `"Title (.)"` gives notes None), otherwise non-empty with no period |
| ManualFacts.SplitFieldsShape | bls_sdk/manual_parser.py:73 | the fields interleaved with the matched separators give back the text; no field holds a tab or two whitespace characters in a row; each separator is a lone tab or a whitespace run of two or more; no field has whitespace next to a separator |
| ManualFacts.SplitFieldsNonEmpty | bls_sdk/manual_parser.py:73 | a stripped, non-empty line splits into non-empty fields |
| ManualFacts.FindTailHas | bls_sdk/manual_parser.py:104-118 | a tail search succeeds exactly when some comma starts that tail |
| ManualFacts.TailQuarterFirst | bls_sdk/manual_parser.py:104-109 | the quarter is set exactly when a quarter tail occurs |
| ManualFacts.TailMonthSecond | bls_sdk/manual_parser.py:110-116 | the month is set exactly when a month tail occurs and no quarter tail does |
| ManualFacts.TailYearAny | bls_sdk/manual_parser.py:103-121 | the year is set exactly when any of the three tails occurs |
| ManualFacts.TailNoneUnchanged | bls_sdk/manual_parser.py:100-121 | with no tail, the title is unchanged and the period fields are all None |
| ManualFacts.TailCutAtComma | bls_sdk/manual_parser.py:104-121 | a matched tail is cut at a comma; that comma is the one the first matching kind's search finds (quarter, then month, then year), the period is the one that tail reads, and the text before it loses trailing commas and spaces and is stripped |
| ManualFacts.ExtractTailKeepsPrefix | bls_sdk/manual_parser.py:103-121 | period extraction keeps every comma-free, unpadded prefix of the title |
| ManualFacts.EmploymentSituationTitle | bls_sdk/manual_parser.py:96-97 | a notes-free title starting `The Employment Situation` ends up starting `Employment Situation` |
| ManualFacts.ParseLineNone | bls_sdk/manual_parser.py:69-88 | a line gives no record exactly when it is blank or a `release name` header, has fewer than two fields, or has no date in its second field nor on the whole line |
| ManualFacts.ParseLineRecord | bls_sdk/manual_parser.py:73-133 | a record carries the source year and no page URL; its time is the converted leftmost time, and `""` exactly when the line has none; the line has at least two fields and the record's title, period and notes are `TitleParts` of the stripped first field |
| ManualFacts.ParseLineDate | bls_sdk/manual_parser.py:83-92 | a record's date is built from the month (1..12) and day of the date found in field two, or else on the line, with its explicit year or else the source year |
| ManualFacts.ParseLineDateText | bls_sdk/manual_parser.py:89-92 | with a four-digit source year, a record's date reads as `YYYY-MM-DD` with a month 01..12 |
| ManualFacts.ParseLinesAppend | bls_sdk/manual_parser.py:68-133 | records keep line order: the records of two blocks of lines are the records of each block, concatenated |
| ManualFacts.ParseLinesShape | bls_sdk/manual_parser.py:123-133 | a file gives at most one record per line, each with the source year and no page URL |
| ManualFacts.BatchRecordsAppend | bls_sdk/manual_parser.py:164-170 | a batch is the in-order concatenation of the years' records |
| ManualFacts.BatchRecordsSingle | bls_sdk/manual_parser.py:164-170 | one year contributes its file's records, or nothing when the file is missing |
| ReleaseSchedule.TableKeys | bls_sdk/release_schedule.py:15-35 | every month and quarter word the patterns can capture is a key of its table (the constants `ReleaseSchedule.MonthToNum` and `ReleaseSchedule.QuarterWordToNum`) |
| ReleaseSchedule.TableRanges | bls_sdk/release_schedule.py:15-35 | `ReleaseSchedule.MonthToNum` numbers months in 1..12 and `ReleaseSchedule.QuarterWordToNum` quarters in 1..4 |
| ReleaseSchedule.ForAt | bls_sdk/release_schedule.py:183 | a separator `\s+for\s+` at a position ends after it, within the text |
| ReleaseSchedule.FindForFrom | bls_sdk/release_schedule.py:183 | the split point is the leftmost ` for ` separator, and None exactly when the text has none |
| ReleaseSchedule.SplitAtFor | bls_sdk/release_schedule.py:182-184 | the title part is a prefix of the normalised text |
| ReleaseSchedule.FindTagFrom | bls_sdk/release_schedule.py:186 | the tag search returns the leftmost position from which a tag runs to the end, and None exactly when none does |
| ReleaseSchedule.StripTag | bls_sdk/release_schedule.py:186 | removing the tag leaves a prefix of the title |
| ReleaseSchedule.QuarterRuleAt | bls_sdk/release_schedule.py:193-196 | the quarter rule sets a quarter 1..4 and a four-digit year, and no month |
| ReleaseSchedule.MonthRuleAt | bls_sdk/release_schedule.py:199-202 | the month rule sets a month 1..12 and a four-digit year, and no quarter |
| ReleaseSchedule.FrequencyRuleAt | bls_sdk/release_schedule.py:205-207 | the Annual/Biennial rule sets the year only |
| ReleaseSchedule.YearRuleAt | bls_sdk/release_schedule.py:210-212 | the fallback sets the year only |
| ReleaseSchedule.RuleAt | bls_sdk/release_schedule.py:193-212 | any rule sets a four-digit year; only the quarter rule sets a quarter and only the month rule a month, within their ranges |
| ReleaseSchedule.FindRuleFrom | bls_sdk/release_schedule.py:193-212 | each rule's search returns the leftmost matching position, and None exactly when none matches |
| ReleaseSchedule.RuleResult | bls_sdk/release_schedule.py:193-212 | a rule gives a period exactly when its search succeeds |
| ReleaseSchedule.FirstRuleResult | bls_sdk/release_schedule.py:190-213 | the first rule that matches gives a period with never both a month and a quarter, each in range, and no period means every field is None |
| ReleaseSchedule.ParseReleaseText | bls_sdk/release_schedule.py:171-213 | the parsed period never has both a month and a quarter; a quarter is in 1..4 and a month in 1..12; without a year nothing is set |
| ReleaseSchedule.NormHeader | bls_sdk/release_schedule.py:80 | a header text with whitespace collapsed, lower-cased and trailing colons removed; `FindHeaderFrom` states how it picks the header row |
| ReleaseSchedule.IsHeaderRow | bls_sdk/release_schedule.py:77-81 | a row with header cells whose first three normalised texts are `date`, `time`, `release`; `FindHeaderFrom` states that the first such row is chosen |
| ReleaseSchedule.AcceptRow | bls_sdk/release_schedule.py:89-103 | the row a data row yields, if its cells pass the checks; `AcceptRowChecks` states its cells and checks |
| ReleaseSchedule.FindHeaderFrom | bls_sdk/release_schedule.py:76-83 | the header row is the first row whose normalised first three headers are `date`, `time`, `release`, and None exactly when no row is |
| ReleaseSchedule.ScanRows | bls_sdk/release_schedule.py:86-103 | the scan emits at most one row per table row |
| ReleaseSchedule.BodyRows | bls_sdk/release_schedule.py:86-103 | the rows kept after a header row; `BodyRowsAppend`, `BodyRowsStopAt` and `BodyRowsChecked` state its order, its stop and its checks |
| ReleaseSchedule.TableRows | bls_sdk/release_schedule.py:74-103 | the rows of one table; `TableRowsNoHeader` and `TableRowsChecked` state both cases |
| ReleaseSchedule.ExtractedRows | bls_sdk/release_schedule.py:73-104 | the rows of all tables; `ExtractedRowsAppend` and `ExtractedRowsChecked` state order and checks |
| ReleaseSchedule.HeaderIndex | bls_sdk/release_schedule.py:75-83 | the loop sets `header_index` to the first header row, or -1 |
| ReleaseSchedule.ScanBody | bls_sdk/release_schedule.py:86-103 | the row loop returns `BodyRows` of the rows after the header |
| ReleaseSchedule.ExtractRows | bls_sdk/release_schedule.py:73-104 | the table loop returns `ExtractedRows`, table by table |
| ReleaseSchedule.FirstYearLink | bls_sdk/release_schedule.py:122-126 | the chosen link is the first whose text or href contains the year, and None exactly when none does |
| ReleaseSchedule.YearPageUrl | bls_sdk/release_schedule.py:122-128 | the page opened for a year; `YearPageUrlFirst` and `YearPageUrlFallback` state both cases |
| ReleaseSchedule.ChooseYearUrl | bls_sdk/release_schedule.py:122-128 | the candidate loop returns `YearPageUrl`: the first matching link's href, or the archive URL of the year |
| ReleaseSchedule.PageRecords | bls_sdk/release_schedule.py:138-149 | a page gives one record per accepted row, in row order: the record keeps the row's raw date and time, takes title and period from the parsed release text, and names the year and the page URL |
| ReleaseSchedule.RecordOf | bls_sdk/release_schedule.py:139-149 | the record of one row; `PageRecords` states its fields |
| ReleaseSchedule.YearRecords | bls_sdk/release_schedule.py:120-149 | the records of one year's page, opened at `YearPageUrl`; `ScrapedYearBlock` places them in the result |
| ReleaseSchedule.ScrapeRecords | bls_sdk/release_schedule.py:119-149 | the records of all years, year by year; `ScrapeRecordsAppend`, `ScrapedYearBlock` and `ScrapedRecordsWellFormed` state its structure |
| ReleaseSchedule.ScrapeArchivedSchedule | bls_sdk/release_schedule.py:119-149 | the year loop returns `ScrapeRecords`, the records of each year's page in year order |
| ReleaseSchedule.BuildRecords | bls_sdk/release_schedule.py:138-149 | the record loop of one page returns `PageRecords` |
| ReleaseFacts.RuleResultMatches | bls_sdk/release_schedule.py:193-212 | a rule gives a period exactly when it matches at some position |
| ReleaseFacts.FirstRuleWins | bls_sdk/release_schedule.py:193-208 | when rule k is the first that matches, the period is rule k's |
| ReleaseFacts.NoRuleMatches | bls_sdk/release_schedule.py:209-213 | when no rule matches, year, month and quarter are all None |
| ReleaseFacts.PeriodQuarterIff | bls_sdk/release_schedule.py:193-197 | a quarter is set exactly when the quarter rule matches |
| ReleaseFacts.PeriodMonthIff | bls_sdk/release_schedule.py:199-203 | a month is set exactly when the month rule matches and the quarter rule does not |
| ReleaseFacts.PeriodNoneIff | bls_sdk/release_schedule.py:190-213 | no period field is set exactly when none of the four rules matches |
| ReleaseFacts.PeriodCases | bls_sdk/release_schedule.py:193-212 | the period is the result of the first of quarter, month, Annual/Biennial and year rules that matches |
| ReleaseFacts.ReleasePeriodSource | bls_sdk/release_schedule.py:182-191 | without ` for ` there is no period; otherwise the period is read from the text after the first ` for ` |
| ReleaseFacts.ReleaseTitleShape | bls_sdk/release_schedule.py:184-186 | the title is the text before the first ` for `, less at most one tag that reaches the end, the leftmost such |
| ReleaseFacts.StripTagNoTag | bls_sdk/release_schedule.py:186 | a title without a tag is unchanged |
| ReleaseFacts.ReleaseTitleIgnoresPeriod | bls_sdk/release_schedule.py:182-186 | two descriptions with the same text before the first ` for ` get the same title, whatever follows, parentheticals included |
| ReleaseFacts.AcceptRowChecks | bls_sdk/release_schedule.py:89-103 | an accepted row has three cells, a trimmed date of `<Weekday>, <Month> d, yyyy`, a time `h:mm AM/PM` and a non-empty release; it keeps the untrimmed NBSP-replaced date cell and the whitespace-normalised NBSP-replaced time and release cells |
| ReleaseSchedule.DateCellOk | bls_sdk/release_schedule.py:67-69 | `date_re.match` on the trimmed date cell: weekday, comma, whitespace, month, whitespace, one or two digits, comma, whitespace, four digits, then the end (each part matched greedily, which no later part can undo); `AcceptRowChecks` states that every accepted row passes it |
| ReleaseSchedule.TimeCellOk | bls_sdk/release_schedule.py:70 | `time_re.match` on the normalised time cell: one or two digits, a colon, two digits, optional whitespace, then AM or PM and the end; `AcceptRowChecks` states that every accepted row passes it |
| ReleaseFacts.ScanRowsAppend | bls_sdk/release_schedule.py:86-103 | across rows without header cells the scan keeps row order |
| ReleaseFacts.ScanRowsFrom | bls_sdk/release_schedule.py:86-103 | the scan yields, in table order, exactly the rows `keep` accepts before the first header row: the i-th result comes from the i-th of `KeptPositions`, those positions increase, and every accepted header-free row's position is among them |
| ReleaseFacts.KeptPositionsSound | bls_sdk/release_schedule.py:86-103 | there is one kept position per scanned row; the i-th lies before any header row and `keep` yields the i-th scanned row there |
| ReleaseFacts.KeptPositionsIncreasing | bls_sdk/release_schedule.py:86-103 | the kept positions strictly increase, so rows come out in table order |
| ReleaseFacts.KeptPositionsComplete | bls_sdk/release_schedule.py:86-103 | every row before the first header row that `keep` accepts is at a kept position |
| ReleaseFacts.BodyRowsAppend | bls_sdk/release_schedule.py:86-103 | the rows of a body split after a header-free block are the rows of each part, in order |
| ReleaseFacts.BodyRowsStopAt | bls_sdk/release_schedule.py:87-88 | the scan stops at the next row holding a header cell |
| ReleaseFacts.BodyRowsChecked | bls_sdk/release_schedule.py:89-103 | every emitted body row passes the cell checks |
| ReleaseFacts.TableRowsNoHeader | bls_sdk/release_schedule.py:84-85 | a table without a header row contributes nothing |
| ReleaseFacts.ExtractedRowsAppend | bls_sdk/release_schedule.py:73-104 | rows keep table order, then row order |
| ReleaseFacts.ExtractedRowsChecked | bls_sdk/release_schedule.py:73-104 | every extracted row passes the cell checks |
| ReleaseFacts.TableRowsChecked | bls_sdk/release_schedule.py:76-103 | every row a table contributes passes the cell checks |
| ReleaseFacts.YearPageUrlFallback | bls_sdk/release_schedule.py:127-128 | with no link mentioning the year, the page is `all_<year>_sched.htm` |
| ReleaseFacts.YearPageUrlFirst | bls_sdk/release_schedule.py:122-128 | the first link mentioning the year gives the URL, or the archive URL when its href is empty |
| ReleaseFacts.ScrapeRecordsAppend | bls_sdk/release_schedule.py:119-149 | records of two lists of years are the records of each, concatenated |
| ReleaseFacts.ScrapedRecordsWellFormed | bls_sdk/release_schedule.py:139-149 | every record names one of the requested years and never has both a month and a quarter |
| ReleaseFacts.ScrapedYearBlock | bls_sdk/release_schedule.py:119-149 | the records of the k-th year form one block between those of the earlier and the later years; the block is that year's page records, each naming the year |
| Qcew.QuarterCode | bls_sdk/qcew.py:62-72 | an accepted spelling maps to one of `a`, `1`..`4` |
| Qcew.NormalizeQuarter | bls_sdk/qcew.py:60-72 | the result is one of `a`, `1`..`4`, or the invalid-quarter error naming the input |
| Qcew.ValidateYearWindow | bls_sdk/qcew.py:74-79 | a rejection reports the window `cur-4`..`cur` and the year |
| Qcew.RaiseForStatus | bls_sdk/qcew.py:46 | a response raises exactly when its status is 4xx or 5xx, with that status; otherwise its rows are read |
| Qcew.TableCsv | bls_sdk/qcew.py:34-52 | `get_table_csv` over an HTTP oracle; `TableCsvOutcome` states its whole outcome, and the other `TableCsv...` lemmas its checks, its gz retry and its requests |
| Qcew.TableRequests | bls_sdk/qcew.py:34-45 | the download requests at most two URLs |
| Qcew.AreaRowsOf | bls_sdk/qcew.py:57 | the filter keeps at most the input rows, each with `area_fips` equal to the code |
| Qcew.AreaRows | bls_sdk/qcew.py:54-57 | `get_area_rows`; `AreaRowsErrors` states its error case and its filter |
| Qcew.BuildTitleMap | bls_sdk/qcew.py:120-123 | no title rows give an empty lookup |
| Qcew.JoinedRow | bls_sdk/qcew.py:125-143 | one joined row; `JoinedRowKeepsColumns` and `JoinedRowTitles` state which columns change and how |
| Qcew.JoinedTable | bls_sdk/qcew.py:113-144 | one joined row per input row, in order; `JoinTitles` is its loop |
| Qcew.JoinTitles | bls_sdk/qcew.py:113-144 | the row loop returns `JoinedTable`: one joined copy per input row, in order, absent title lists counting as empty |
| Qcew.CopyWithTitles | bls_sdk/qcew.py:126-142 | the copy of one row holds the titles `JoinedRow` defines |
| Qcew.TitleCsv | bls_sdk/qcew.py:82-99 | `_fetch_title_csv` over an HTTP oracle; `TitleCsvOutcome` states when it raises and what it returns |
| Qcew.CachedTitles | bls_sdk/qcew.py:147-160 | one cached lookup on a cache value, with the cache afterwards; the `CachedTitles...` lemmas state its cases |
| Qcew.CachedTitlesAll | bls_sdk/qcew.py:164-167 | the four lookups one after the other, stopping at the first that raises; when they return there is one list per name |
| Qcew.QcewClient.constructor | bls_sdk/qcew.py:14-16 | a new client has an empty title cache and has downloaded nothing |
| Qcew.QcewClient.FetchTitleCsv | bls_sdk/qcew.py:82-99 | the loop over the two suffixes returns `TitleCsv`: the first answer that is not a 404 is checked, and two 404s give no rows |
| Qcew.QcewClient.GetTitlesCached | bls_sdk/qcew.py:147-160 | a cached name returns the cached rows without downloading; an unknown name gives no rows, downloads nothing and leaves the cache unchanged; a known name is downloaded and, when the download returns, cached; a download that raises propagates the error and caches nothing; the download log and the client invariant are kept |
| Qcew.QcewClient.GetAllTitles | bls_sdk/qcew.py:164-167 | the four lookups in order return what `CachedTitlesAll` defines: the four title lists, or the first error with the names looked up before it cached |
| Qcew.QcewClient.GetTableWithTitles | bls_sdk/qcew.py:162-168 | a table download that raises ends the call with its error, the cache and the download log unchanged; otherwise a title lookup that raises ends it with that error; else it returns the table joined with the four title lists, and the cache is as the lookups leave it |
| QcewFacts.QuarterCodeTable | bls_sdk/qcew.py:62-72 | the if-chain agrees with the table of accepted spellings |
| QcewFacts.NormalizeQuarterTable | bls_sdk/qcew.py:60-72 | a quarter is accepted exactly when its stripped, lower-cased text is an accepted spelling, and it maps to that spelling's code |
| QcewFacts.NormalizeQuarterIdempotent | bls_sdk/qcew.py:60-72 | each code normalises to itself |
| QcewFacts.NormalizeQuarterStable | bls_sdk/qcew.py:60-72 | normalising a normalised quarter changes nothing |
| QcewFacts.YearWindowIff | bls_sdk/qcew.py:74-79 | a year is accepted exactly when `cur-4 <= year <= cur` |
| QcewFacts.TableCsvChecksYearFirst | bls_sdk/qcew.py:35 | a year outside the window raises before any request |
| QcewFacts.TableCsvChecksQuarterFirst | bls_sdk/qcew.py:35-36 | an invalid quarter raises before any request |
| QcewFacts.TableCsvGzFallback | bls_sdk/qcew.py:39-45 | a 404 on the plain CSV retries with gz, two requests in all; a 404 there too gives no rows |
| QcewFacts.TableCsvUsesOnlyRequests | bls_sdk/qcew.py:34-45 | the result depends only on the responses to the URLs requested |
| QcewFacts.TableCsvOutcome | bls_sdk/qcew.py:34-52 | a bad year or quarter raises its error first; otherwise the plain answer decides unless it is a 404, when the gz answer does; a deciding 4xx or 5xx raises `HttpError` with its status, any other status gives its rows, and two 404s give no rows |
| QcewFacts.AreaRowsOfAppend | bls_sdk/qcew.py:57 | the filter keeps the original order |
| QcewFacts.AreaRowsOfMember | bls_sdk/qcew.py:57 | a row is kept exactly when it is an input row whose `area_fips` is the code |
| QcewFacts.AreaRowsOfAll | bls_sdk/qcew.py:57 | rows that all match are kept as they are |
| QcewFacts.AreaRowsErrors | bls_sdk/qcew.py:54-57 | `get_area_rows` fails exactly when the area table download does, and otherwise filters its rows |
| QcewFacts.TitleMapKeys | bls_sdk/qcew.py:120-123 | the lookup's keys are exactly the codes of the title rows |
| QcewFacts.TitleMapLastWins | bls_sdk/qcew.py:120-123 | a code's title is that of the last title row with that code |
| QcewFacts.TitleMapNonEmpty | bls_sdk/qcew.py:120-123 | a lookup is non-empty exactly when it has title rows |
| QcewFacts.JoinedRowKeepsColumns | bls_sdk/qcew.py:125-143 | a joined row holds every input key, adds only title columns, and keeps every other column's value |
| QcewFacts.JoinedRowTitles | bls_sdk/qcew.py:127-142 | each title column is set from its lookup only when the lookup is non-empty and knows the row's code, and is otherwise as in the input |
| QcewFacts.JoinSingleTitleRows | tests/test_qcew_titles.py:24-37 | one title row per lookup with the row's codes gives the row all four titles |
| QcewFacts.JoinWithoutTitles | bls_sdk/qcew.py:124-143 | with no title rows, a joined row is the input row |
| QcewFacts.CachedTitlesRepeat | bls_sdk/qcew.py:147-149 | after a lookup that returned, a repeated lookup returns the same rows and cache, whatever the server answers |
| QcewFacts.CachedTitlesUnknown | bls_sdk/qcew.py:150-157 | an unknown, uncached name gives no rows and leaves the cache unchanged |
| QcewFacts.CachedTitlesDownload | bls_sdk/qcew.py:150-160 | an uncached known name returns the download's result, and its rows are stored only when the download returns |
| QcewFacts.CachedTitlesFailureRetries | bls_sdk/qcew.py:158-159 | a lookup that raises leaves the name uncached and the cache unchanged, so the next lookup downloads it again as if the first had not happened |
| QcewFacts.CachedTitlesGrows | bls_sdk/qcew.py:147-160 | a lookup can only add the name asked for, and keeps every cached entry |
| QcewFacts.CachedTitlesAllKeeps | bls_sdk/qcew.py:164-167 | the four lookups keep every cached entry and add only names looked up |
| QcewFacts.CachedTitlesAllOk | bls_sdk/qcew.py:164-167 | when they all return, the k-th list is the cache entry of the k-th name, and every name is cached |
| QcewFacts.CachedTitlesAllOkIff | bls_sdk/qcew.py:164-167 | they all return exactly when every name is already cached, is unknown or downloads without raising |
| QcewFacts.CachedTitlesAllError | bls_sdk/qcew.py:164-167 | an error is the download error of a known name that stays uncached |
| QcewFacts.TitleCsvOutcome | bls_sdk/qcew.py:84-99 | the title download raises exactly when the first answer that is not a 404 is 4xx or 5xx, with that status; otherwise it returns that answer's rows, or no rows after two 404s |
| PublicData.RequestBody | bls_sdk/public_data.py:30-31 | the body's keys are the options' and `seriesid`; option values win, and `seriesid` is the chunk unless an option overrides it |
| PublicData.SeriesBody | bls_sdk/public_data.py:20-21 | the same for the one-id body of `get_series` |
| PublicData.GetSeries | bls_sdk/public_data.py:19-22 | it posts the one-id body and returns the response |
| PublicData.Chunks | bls_sdk/public_data.py:28-29 | the ids cut into runs of 50; the `Chunk...` lemmas state their sizes, count and contents |
| PublicData.ChunksFlatten | bls_sdk/public_data.py:28-29 | the chunks concatenate back to the ids |
| PublicData.ChunksCount | bls_sdk/public_data.py:28-29 | there are ⌈n/50⌉ chunks |
| PublicData.ChunkAt | bls_sdk/public_data.py:28-29 | chunk j is the ids from 50j up to 50j+50 or the end |
| PublicData.ChunkExists | bls_sdk/public_data.py:28 | chunk j exists exactly when 50j is below the number of ids |
| PublicData.ChunkSizes | bls_sdk/public_data.py:12-29 | each chunk holds 1..50 ids, and all but the last hold exactly 50 |
| PublicData.SeriesOf | bls_sdk/public_data.py:33-34 | a missing `Results` or `series` counts as an empty list |
| PublicData.Requests | bls_sdk/public_data.py:28-31 | one body per chunk, in order; `RequestsCarryIds` and `GetManySeries` state what they carry and send |
| PublicData.Merged | bls_sdk/public_data.py:33-35 | the series of each response, concatenated in order; `MergedSnoc`, `MergedAppend` and `MergedNoSeries` state its structure |
| PublicData.GetManySeries | bls_sdk/public_data.py:24-36 | it sends one body per chunk, in order, and returns the concatenated series of the responses; no ids means no requests and no series |
| PublicData.PostChunk | bls_sdk/public_data.py:29-34 | the body of chunk j is posted and its series returned |
| PublicData.MergedSnoc | bls_sdk/public_data.py:35 | each response's series are added at the end |
| PublicData.MergedAppend | bls_sdk/public_data.py:28-35 | the merge of two runs of requests is the concatenation of their merges |
| PublicData.MergedNoSeries | bls_sdk/public_data.py:33-35 | responses without series merge to nothing |
| PublicData.RequestsCarryIds | bls_sdk/public_data.py:28-31 | without options, each body carries exactly its chunk, and the chunks restore the ids |
| PublicData.LatestParams | bls_sdk/public_data.py:39-40 | one `("seriesid", id)` pair per id, in order |
| PublicData.LatestSingle | bls_sdk/public_data.py:39 | a single id is treated as a one-element list |
| PublicData.PopularParams | bls_sdk/public_data.py:44 | parameters are sent exactly when a non-empty survey is given, as `{"survey": survey}` |
| PublicData.SurveyUrl | bls_sdk/public_data.py:51 | the URL is the surveys endpoint, a slash and the abbreviation |
| PublicData.SurveysList | bls_sdk/public_data.py:54-56 | the list is `Results.survey`, or empty when either member is missing |
| Text.FormatNatRoundTrip | bls_sdk/manual_parser.py:92 | a zero-padded number reads back as the number |
| Text.FormatNatWidth | bls_sdk/manual_parser.py:92 | a number below 10^w padded to width w has exactly w digits |

## Left out

- File reading, `Path.exists` and the pandas DataFrame output: the parsers take the lines of each file (a map from year to lines for a batch) and return the JSON-style record lists.
- Selenium and BeautifulSoup: driver creation, navigation, clicks and sleeps are left out. A year page is given as the browser's final URL and its tables of header-cell and data-cell texts, and `browse` stands for opening a URL and choosing List View.
- ReleaseSchedule.ScrapeArchivedSchedule: the `text_to_href` dictionary is taken as a given sequence of (text, href) pairs. Building it from the link elements (dropping elements without an href, later texts replacing earlier ones) is not modelled.
- bls_sdk/http_client.py, bls_sdk/rate_limiter.py and bls_sdk/series_catalog.py are not part of this model: they are network I/O, timing and a library CSV parser.
- Qcew.TableCsv: the HTTP response is a status and already-decoded rows; gzip and CSV decoding and the UTF-8 replacement are not modelled. The `get` oracle is total, so exceptions raised by `requests.get` itself (timeouts, connection errors) are not modelled.
- Qcew.TitleCsv: as for the table download, the title responses are a status and already-decoded rows; gzip and CSV decoding of the `.csv.gz` file are not modelled. The `get` oracle is total, so exceptions raised by `requests.get` itself (timeouts, connection errors) are not modelled.
- The `get_by_*` JSON wrappers of `QCEWClient`, `list_surveys` and the config base URLs are left out. The URLs are parameters where they matter.
- Qcew.ValidateYearWindow: the current UTC year is a parameter, not read from a clock.
- PublicData.GetManySeries: `post_public_timeseries` is a deterministic function from request body to response, so retries, rate limiting and network failures are not modelled. Responses are typed records with optional `Results` and `series` members rather than arbitrary JSON, so a non-list `series` value is not modelled.
- PublicData.SurveysList: the response is a typed record whose `survey` member is a list, so `list(...)` of a non-list value (a dictionary, a string) is not modelled.
- Text.Lower: lower-cases ASCII letters only. Python's `str.lower` and `re.I` also fold some non-ASCII letters (for example U+212A KELVIN SIGN to `k`), and texts with those are not modelled. For a month text caught that way the source would fail the dictionary lookup.
- Text.Title: title-cases ASCII letters only; `str.title` on non-ASCII letters is not modelled.
- Text.IsDigit: `\d` and `int()` are modelled on ASCII digits, and `\b` on ASCII word characters; Unicode decimal digits and letters are not modelled.

