/**
 * Properties of the manual schedule parser: the time conversion and its
 * inverse, the leftmost time and date, the notes clean-up, the period-tail
 * precedence, and the shape and order of the records a file produces.
 */
module ManualFacts {
  import opened Wrappers
  import opened Text
  import opened ManualParser

  // ---------------------------------------------------------------------
  // Time
  // ---------------------------------------------------------------------

  /** The 12-hour reading of an hour of the 24-hour clock. */
  function From24Hour(h: nat): (nat, char) {
    (if h % 12 == 0 then 12 else h % 12, if h < 12 then 'a' else 'p')
  }

  /** 12 AM is hour 0, 12 PM stays 12, other PM hours gain 12 and other AM hours are kept. */
  lemma To24HourRules(h: nat)
    ensures To24Hour(12, 'a') == 0 && To24Hour(12, 'p') == 12
    ensures h != 12 ==> To24Hour(h, 'a') == h && To24Hour(h, 'p') == h + 12
  {
  }

  /** On a proper 12-hour reading the conversion lands on the 24-hour clock and can be undone. */
  lemma To24HourRoundTrip(h: nat, meridiem: char)
    requires 1 <= h <= 12 && meridiem in {'a', 'p'}
    ensures To24Hour(h, meridiem) < 24
    ensures From24Hour(To24Hour(h, meridiem)) == (h, meridiem)
  {
  }

  /** Every hour of the 24-hour clock is the conversion of exactly the reading `From24Hour` gives. */
  lemma From24HourRoundTrip(h: nat)
    requires h < 24
    ensures 1 <= From24Hour(h).0 <= 12 && From24Hour(h).1 in {'a', 'p'}
    ensures To24Hour(From24Hour(h).0, From24Hour(h).1) == h
  {
  }

  /** `HH:MM`: two zero-padded digits, a colon, two zero-padded digits, decoding back to the numbers. */
  lemma ClockTextShape(hour: nat, minute: nat)
    requires hour < 100 && minute < 100
    ensures var c := ClockText(hour, minute);
      |c| == 5 && c[2] == ':' && AllDigits(c[..2]) && AllDigits(c[3..]) &&
      DecimalValue(c[..2]) == hour && DecimalValue(c[3..]) == minute
  {
    TwoDigitField(hour);
    TwoDigitField(minute);
    ClockFields(FormatInt(hour, 2), FormatInt(minute, 2), hour, minute);
  }

  lemma ClockFields(a: string, b: string, h: nat, m: nat)
    requires |a| == 2 && AllDigits(a) && DecimalValue(a) == h
    requires |b| == 2 && AllDigits(b) && DecimalValue(b) == m
    ensures var c := a + ":" + b;
      |c| == 5 && c[2] == ':' && AllDigits(c[..2]) && AllDigits(c[3..]) &&
      DecimalValue(c[..2]) == h && DecimalValue(c[3..]) == m
  {
    var c := a + ":" + b;
    assert c[..2] == a;
    assert c[3..] == b;
  }

  /** A number below 100 written with `:02d`. */
  lemma TwoDigitField(n: nat)
    requires n < 100
    ensures |FormatInt(n, 2)| == 2 && AllDigits(FormatInt(n, 2)) && DecimalValue(FormatInt(n, 2)) == n
  {
    assert Pow10(2) == 100;
    FormatNatWidth(n, 2);
    FormatNatRoundTrip(n, 2);
  }

  /** The time match at `p` is the leftmost one on `s`. */
  ghost predicate LeftmostTime(s: string, p: nat)
  {
    p <= |s| && TimeMatchAt(s, p).Some? && forall q :: 0 <= q < p ==> TimeMatchAt(s, q).None?
  }

  /**
   * `_normalize_time_24h` gives None exactly when the time pattern occurs
   * nowhere; otherwise it converts the leftmost occurrence.
   */
  lemma NormalizeTimeLeftmost(text: string)
    ensures var s := ReplaceChar(text, Nbsp, ' ');
      NormalizeTime24h(text).None? <==> forall q :: 0 <= q <= |s| ==> TimeMatchAt(s, q).None?
    ensures var s := ReplaceChar(text, Nbsp, ' ');
      NormalizeTime24h(text).Some? ==>
        exists p: nat :: LeftmostTime(s, p) &&
          var m := TimeMatchAt(s, p).value;
          NormalizeTime24h(text).value == ClockText(To24Hour(m.hour, m.meridiem), m.minute)
  {
    var s := ReplaceChar(text, Nbsp, ' ');
    match FindTimeFrom(s, 0)
    case None =>
    case Some(p) =>
      assert LeftmostTime(s, p);
  }

  /** A time written without minutes reads as minute 0. */
  lemma TimeMinutesDefault(s: string, i: nat)
    requires i <= |s| && TimeMatchAt(s, i).Some?
    requires var hEnd := if i + 1 < |s| && IsDigit(s[i + 1]) then i + 2 else i + 1;
      !(hEnd < |s| && s[hEnd] == ':')
    ensures TimeMatchAt(s, i).value.minute == 0
  {
  }

  /** A matched hour of 1..12 gives a five-character `HH:MM` below `24:00`. */
  lemma NormalizeTimeShape(text: string)
    requires var s := ReplaceChar(text, Nbsp, ' ');
      FindTimeFrom(s, 0).Some? && 1 <= TimeMatchAt(s, FindTimeFrom(s, 0).value).value.hour <= 12
    ensures NormalizeTime24h(text).Some?
    ensures var c := NormalizeTime24h(text).value;
      |c| == 5 && c[2] == ':' && AllDigits(c[..2]) && DecimalValue(c[..2]) < 24
  {
    var s := ReplaceChar(text, Nbsp, ' ');
    var m := TimeMatchAt(s, FindTimeFrom(s, 0).value).value;
    To24HourRoundTrip(m.hour, m.meridiem);
    ClockTextShape(To24Hour(m.hour, m.meridiem), m.minute);
  }

  // ---------------------------------------------------------------------
  // Dates
  // ---------------------------------------------------------------------

  /** `YYYY-MM-DD`: fixed positions, zero-padded, decoding back to year, month and day. */
  lemma IsoDateRoundTrip(year: nat, month: nat, day: nat)
    requires year < 10000 && month < 100 && day < 100
    ensures var d := IsoDate(year, month, day);
      |d| == 10 && d[4] == '-' && d[7] == '-' &&
      AllDigits(d[..4]) && AllDigits(d[5..7]) && AllDigits(d[8..]) &&
      DecimalValue(d[..4]) == year && DecimalValue(d[5..7]) == month && DecimalValue(d[8..]) == day
  {
    assert Pow10(4) == 10000;
    FormatNatWidth(year, 4);
    FormatNatRoundTrip(year, 4);
    TwoDigitField(month);
    TwoDigitField(day);
    DateFields(FormatInt(year, 4), FormatInt(month, 2), FormatInt(day, 2), year, month, day);
  }

  lemma DateFields(y: string, m: string, d: string, year: nat, month: nat, day: nat)
    requires |y| == 4 && AllDigits(y) && DecimalValue(y) == year
    requires |m| == 2 && AllDigits(m) && DecimalValue(m) == month
    requires |d| == 2 && AllDigits(d) && DecimalValue(d) == day
    ensures var t := y + "-" + m + "-" + d;
      |t| == 10 && t[4] == '-' && t[7] == '-' &&
      AllDigits(t[..4]) && AllDigits(t[5..7]) && AllDigits(t[8..]) &&
      DecimalValue(t[..4]) == year && DecimalValue(t[5..7]) == month && DecimalValue(t[8..]) == day
  {
    var t := y + "-" + m + "-" + d;
    assert t[..4] == y;
    assert t[5..7] == m;
    assert t[8..] == d;
  }

  /** The date match at `p` is the leftmost one on `s`. */
  ghost predicate LeftmostDate(s: string, p: nat)
  {
    p <= |s| && DateMatchAt(s, p).Some? && forall q :: 0 <= q < p ==> DateMatchAt(s, q).None?
  }

  /** The date search is None exactly when no position matches; otherwise it reads the leftmost match. */
  lemma SearchDateLeftmost(s: string)
    ensures SearchDate(s).None? <==> forall q :: 0 <= q <= |s| ==> DateMatchAt(s, q).None?
    ensures SearchDate(s).Some? ==> exists p: nat :: LeftmostDate(s, p) && SearchDate(s) == DateMatchAt(s, p)
    ensures SearchDate(s).Some? ==> 1 <= SearchDate(s).value.month <= 12
  {
    match FindDateFrom(s, 0)
    case None =>
    case Some(p) =>
      assert LeftmostDate(s, p);
  }

  // ---------------------------------------------------------------------
  // Notes
  // ---------------------------------------------------------------------

  /** `p` and `r` in either case become `P` and `R`. */
  lemma NoteTokenFlags(raw: string)
    ensures var t := RemoveChar(Strip(raw), '.');
      (Lower(t) == "p" ==> NoteToken(raw) == Some("P")) &&
      (Lower(t) == "r" ==> NoteToken(raw) == Some("R"))
  {
    var t := RemoveChar(Strip(raw), '.');
    if Lower(t) == "p" || Lower(t) == "r" {
      assert |t| == 1;
      assert LowerChar(t[0]) == Lower(t)[0];
      assert Upper(t) == [UpperChar(t[0])];
    }
  }

  /** `g` is the text of a `(g)` group of `w` that opens at or after `p`. */
  ghost predicate GroupFrom(w: string, p: nat, g: string)
  {
    exists a: nat :: p <= a && a + |g| + 2 <= |w| && w[a] == '(' && w[a + 1..a + 1 + |g|] == g && w[a + 1 + |g|] == ')'
  }

  /** A group at or after `p'` is a group at or after any earlier `p`. */
  lemma GroupFromEarlier(w: string, p: nat, p': nat, g: string)
    requires p <= p' && GroupFrom(w, p', g)
    ensures GroupFrom(w, p, g)
  {
  }

  /** The inner text of a `(` at `p` closed by the first `)` after it is a group of `w` with no `)`. */
  lemma GroupAt(w: string, p: nat, c: nat)
    requires p < |w| && w[p] == '(' && IndexOf(w, ')', p + 1) == Some(c)
    ensures ')' !in w[p + 1..c] && GroupFrom(w, p, w[p + 1..c])
  {
    var g := w[p + 1..c];
    assert forall x :: 0 <= x < |g| ==> g[x] == w[p + 1 + x];
    assert w[p + 1 + |g|] == ')';
  }

  /** `re.findall(r"\(([^)]+)\)", ...)`: each inner text is non-empty, has no `)` and is enclosed by a group of the text. */
  lemma {:induction false} FindAllGroupsShape(w: string, p: nat)
    requires p <= |w|
    ensures forall k :: 0 <= k < |FindAllGroups(w, p)| ==>
      FindAllGroups(w, p)[k] != [] && ')' !in FindAllGroups(w, p)[k] && GroupFrom(w, p, FindAllGroups(w, p)[k])
    decreases |w| - p
  {
    if p < |w| {
      var next := if w[p] == '(' then IndexOf(w, ')', p + 1) else None;
      if next.Some? && next.value >= p + 2 {
        var c := next.value;
        FindAllGroupsShape(w, c + 1);
        GroupAt(w, p, c);
        var rest := FindAllGroups(w, c + 1);
        assert FindAllGroups(w, p) == [w[p + 1..c]] + rest;
        forall k | 0 <= k < |rest| ensures GroupFrom(w, p, rest[k]) {
          GroupFromEarlier(w, p, c + 1, rest[k]);
        }
      } else {
        FindAllGroupsShape(w, p + 1);
        var rest := FindAllGroups(w, p + 1);
        assert FindAllGroups(w, p) == rest;
        forall k | 0 <= k < |rest| ensures GroupFrom(w, p, rest[k]) {
          GroupFromEarlier(w, p, p + 1, rest[k]);
        }
      }
    }
  }

  /** Every token of a sequence of inner texts is non-empty and free of periods. */
  lemma {:induction false} NoteTokensClean(inner: seq<string>)
    ensures |NoteTokens(inner)| <= |inner|
    ensures forall k :: 0 <= k < |NoteTokens(inner)| ==>
      NoteTokens(inner)[k] != [] && '.' !in NoteTokens(inner)[k]
    decreases |inner|
  {
    if inner != [] {
      NoteTokensClean(inner[..|inner| - 1]);
    }
  }

  /** The start of the maximal trailing run of parenthesised groups: the leftmost place a run begins. */
  ghost predicate LeftmostNotes(title: string, i: nat)
  {
    i <= |title| && NotesRunAt(title, i) && forall q :: 0 <= q < i ==> !NotesRunAt(title, q)
  }

  /**
   * `_strip_notes`: with no trailing run the title is only stripped and the
   * notes are None; otherwise the title is cut where the maximal run begins,
   * and the notes, when present, are non-empty, have no period and are the
   * `", "`-joined tokens of the run.
   */
  lemma SplitNotesFacts(title: string)
    ensures (forall q :: 0 <= q <= |title| ==> !NotesRunAt(title, q)) ==> SplitNotes(title) == (Strip(title), None)
    ensures SplitNotes(title).1.Some? ==>
      exists i: nat :: i <= |title| && LeftmostNotes(title, i) && SplitNotes(title).0 == Strip(title[..i])
    ensures SplitNotes(title).1.Some? ==> SplitNotes(title).1.value != [] && '.' !in SplitNotes(title).1.value
    ensures (exists q :: 0 <= q <= |title| && NotesRunAt(title, q)) ==>
      exists i: nat :: LeftmostNotes(title, i) && SplitNotes(title).0 == Strip(title[..i]) &&
        SplitNotes(title).1 == JoinNotes(NoteTokens(FindAllGroups(title[i..], 0))) &&
        (SplitNotes(title).1.None? <==> NoteTokens(FindAllGroups(title[i..], 0)) == [])
  {
    match FindNotesFrom(title, 0)
    case None =>
      assert SplitNotes(title) == (Strip(title), None);
    case Some(i) =>
      assert LeftmostNotes(title, i);
      var inner := FindAllGroups(title[i..], 0);
      var tokens := NoteTokens(inner);
      NoteTokensClean(inner);
      JoinAvoids(tokens, ", ", '.');
      JoinNotesNone(tokens);
      assert SplitNotes(title) == (Strip(title[..i]), JoinNotes(tokens));
  }

  /** Non-empty tokens join to no notes exactly when there are no tokens. */
  lemma JoinNotesNone(tokens: seq<string>)
    requires forall k :: 0 <= k < |tokens| ==> tokens[k] != []
    ensures JoinNotes(tokens).None? <==> tokens == []
    ensures JoinNotes(tokens).Some? ==> JoinNotes(tokens).value == Join(tokens, ", ")
  {
    JoinEmpty(tokens, ", ");
  }

  // ---------------------------------------------------------------------
  // Period tails
  // ---------------------------------------------------------------------

  /** Some comma of `t` starts a tail of this kind that reaches the end. */
  ghost predicate HasTail(kind: TailKind, t: string)
  {
    exists q :: 0 <= q <= |t| && TailAt(kind, t, q).Some?
  }

  lemma FindTailHas(kind: TailKind, t: string)
    ensures FindTailFrom(kind, t, 0).Some? <==> HasTail(kind, t)
  {
    if FindTailFrom(kind, t, 0).Some? {
      assert TailAt(kind, t, FindTailFrom(kind, t, 0).value).Some?;
    }
  }

  /** The quarter tail is tried first: the quarter is set exactly when a quarter tail occurs. */
  lemma TailQuarterFirst(t: string)
    ensures ExtractTailPeriod(t).1.quarter.Some? <==> HasTail(QuarterTail, t)
  {
    FindTailHas(QuarterTail, t);
    if FindTailFrom(QuarterTail, t, 0).None? {
      var m, y := FindTailFrom(MonthTail, t, 0), FindTailFrom(YearTail, t, 0);
      assert m.Some? ==> TailAt(MonthTail, t, m.value).value.quarter.None?;
      assert m.None? && y.Some? ==> TailAt(YearTail, t, y.value).value.quarter.None?;
    }
  }

  /** The month tail is tried second: the month is set exactly when it occurs and no quarter tail does. */
  lemma TailMonthSecond(t: string)
    ensures ExtractTailPeriod(t).1.month.Some? <==> !HasTail(QuarterTail, t) && HasTail(MonthTail, t)
  {
    FindTailHas(QuarterTail, t);
    FindTailHas(MonthTail, t);
  }

  /** The year is set exactly when any of the three tails occurs. */
  lemma TailYearAny(t: string)
    ensures ExtractTailPeriod(t).1.year.Some? <==>
      HasTail(QuarterTail, t) || HasTail(MonthTail, t) || HasTail(YearTail, t)
  {
    FindTailHas(QuarterTail, t);
    FindTailHas(MonthTail, t);
    FindTailHas(YearTail, t);
  }

  /** With no tail the title and the period are left as they are. */
  lemma TailNoneUnchanged(t: string)
    ensures ExtractTailPeriod(t).1.year.None? ==> ExtractTailPeriod(t) == (t, NoPeriod)
  {
  }

  /**
   * A matched tail is cut off at its comma, and the text before it loses
   * trailing commas and spaces; the comma is the first one at which a tail
   * of the chosen kind starts, and the period is the one that tail reads.
   */
  lemma TailCutAtComma(t: string)
    ensures ExtractTailPeriod(t).1.year.Some? ==>
      exists q: nat :: q < |t| && t[q] == ',' && ExtractTailPeriod(t).0 == CutTail(t, q)
    ensures ExtractTailPeriod(t).1.year.Some? ==>
      exists kind: TailKind, q: nat :: q <= |t| && FindTailFrom(kind, t, 0) == Some(q) &&
        ExtractTailPeriod(t) == (CutTail(t, q), PeriodOf(TailAt(kind, t, q).value))
  {
    match FindTailFrom(QuarterTail, t, 0)
    case Some(q) =>
      TailChosen(QuarterTail, t, q);
    case None =>
      match FindTailFrom(MonthTail, t, 0)
      case Some(q) =>
        TailChosen(MonthTail, t, q);
      case None =>
        match FindTailFrom(YearTail, t, 0)
        case Some(q) =>
          TailChosen(YearTail, t, q);
        case None =>
  }

  /** One case of `TailCutAtComma`: the tail of `kind` at `q` is the one extracted. */
  lemma TailChosen(kind: TailKind, t: string, q: nat)
    requires FindTailFrom(kind, t, 0) == Some(q)
    requires ExtractTailPeriod(t) == (CutTail(t, q), PeriodOf(TailAt(kind, t, q).value))
    ensures q < |t| && t[q] == ','
    ensures exists kind': TailKind, q': nat ::
      q' <= |t| && FindTailFrom(kind', t, 0) == Some(q') &&
      ExtractTailPeriod(t) == (CutTail(t, q'), PeriodOf(TailAt(kind', t, q').value))
  {
  }

  /** Cutting a tail keeps a comma-free prefix whose ends are not stripped. */
  lemma CutTailKeepsPrefix(t: string, start: nat, pre: string)
    requires start <= |t| && StartsWith(t, pre) && |pre| <= start
    requires pre != [] && !IsSpace(pre[0]) && !IsSpace(pre[|pre| - 1]) && pre[|pre| - 1] != ','
    ensures StartsWith(CutTail(t, start), pre)
  {
    var u := t[..start];
    assert u[|pre| - 1] == pre[|pre| - 1];
    RStripCharsKeeps(u, {',', ' '}, |pre|);
    var v := RStripChars(u, {',', ' '});
    assert v[..|pre|] == pre;
    StripKeepsPrefix(v, pre);
  }

  /** Period extraction keeps a comma-free prefix of the title. */
  lemma ExtractTailKeepsPrefix(t: string, pre: string)
    requires StartsWith(t, pre) && ',' !in pre
    requires pre != [] && !IsSpace(pre[0]) && !IsSpace(pre[|pre| - 1])
    ensures StartsWith(ExtractTailPeriod(t).0, pre)
  {
    TailCutAtComma(t);
    if ExtractTailPeriod(t).1.year.Some? {
      var q: nat :| 0 <= q < |t| && t[q] == ',' && ExtractTailPeriod(t).0 == CutTail(t, q);
      CutTailKeepsPrefix(t, q, pre);
    }
  }

  lemma EmploymentPrefix(s: string)
    requires StartsWith(s, "The Employment Situation")
    ensures StartsWith(s[4..], "Employment Situation")
  {
    assert s[4..][..20] == s[..24][4..];
  }

  lemma EmploymentWords()
    ensures ',' !in "Employment Situation"
    ensures !IsSpace('E') && !IsSpace('n')
  {
  }

  /** A notes-free title starting `The Employment Situation` ends up starting `Employment Situation`. */
  lemma EmploymentSituationTitle(title: string)
    requires StartsWith(SplitNotes(title).0, "The Employment Situation")
    ensures StartsWith(TitleParts(title).0, "Employment Situation")
  {
    var noteless := SplitNotes(title).0;
    var named := noteless[4..];
    EmploymentPrefix(noteless);
    EmploymentWords();
    ExtractTailKeepsPrefix(named, "Employment Situation");
    assert TitleParts(title).0 == ExtractTailPeriod(named).0;
  }

  // ---------------------------------------------------------------------
  // The field split
  // ---------------------------------------------------------------------

  /** The separators the split matches from `p` on, in order. */
  function SeparatorsFrom(s: string, p: nat): seq<string>
    requires p <= |s|
    decreases |s| - p
  {
    if p == |s| then []
    else
      var n := SeparatorAt(s, p);
      if n > 0 then [s[p..p + n]] + SeparatorsFrom(s, p + n)
      else SeparatorsFrom(s, p + 1)
  }

  /** The fields with the separators between them, in order. */
  function Interleave(fields: seq<string>, seps: seq<string>): string
    requires |fields| == |seps| + 1
    decreases |seps|
  {
    if seps == [] then fields[0] else fields[0] + seps[0] + Interleave(fields[1..], seps[1..])
  }

  /** A text without a tab and without two whitespace characters in a row: no separator fits in it. */
  predicate SeparatorFree(f: string) {
    forall i :: 0 <= i < |f| ==> f[i] != '\t' && (i + 1 < |f| ==> !(IsSpace(f[i]) && IsSpace(f[i + 1])))
  }

  /** A match of `\s{2,}|\t+`: a lone tab, or two or more whitespace characters. */
  predicate IsSeparator(sep: string) {
    sep == "\t" || (|sep| >= 2 && forall i :: 0 <= i < |sep| ==> IsSpace(sep[i]))
  }

  /** The text does not start with whitespace. */
  predicate ClearStart(f: string) { f == [] || !IsSpace(f[0]) }

  /** The text does not end with whitespace. */
  predicate ClearEnd(f: string) { f == [] || !IsSpace(f[|f| - 1]) }

  /**
   * Fields and separators as the split leaves them: separator-free fields,
   * separators that match the pattern, and no whitespace on either side of
   * a separator.
   */
  predicate WellSplit(fields: seq<string>, seps: seq<string>)
    requires |fields| == |seps| + 1
  {
    (forall k :: 0 <= k < |fields| ==> SeparatorFree(fields[k])) &&
    (forall k :: 0 <= k < |seps| ==> IsSeparator(seps[k])) &&
    (forall k :: 0 <= k < |seps| ==> ClearEnd(fields[k])) &&
    (forall k :: 1 <= k < |fields| ==> ClearStart(fields[k]))
  }

  /** A suffix cut at two points. */
  lemma ThreeSlices<T>(s: seq<T>, i: nat, j: nat, k: nat)
    requires i <= j <= k <= |s|
    ensures s[i..] == s[i..j] + s[j..k] + s[k..]
  {
  }

  /** A separator at `p` is a lone tab or a whitespace run of two or more. */
  lemma SeparatorMatches(s: string, p: nat)
    requires p < |s| && SeparatorAt(s, p) > 0
    ensures IsSeparator(s[p..p + SeparatorAt(s, p)])
  {
    if SeparatorAt(s, p) == 1 {
      assert s[p..p + 1] == "\t";
    }
  }

  /**
   * The field before a separator at `p`, from `start`, does not end with
   * whitespace, or the separator would have started one position earlier.
   */
  lemma FieldEndClear(s: string, start: nat, p: nat)
    requires start <= p < |s| && SeparatorAt(s, p) > 0
    requires start < p ==> SeparatorAt(s, p - 1) == 0
    ensures ClearEnd(s[start..p])
  {
  }

  /** Interleaving with a field and a separator in front. */
  lemma InterleaveCons(f0: string, s0: string, fields: seq<string>, seps: seq<string>)
    requires |fields| == |seps| + 1
    ensures Interleave([f0] + fields, [s0] + seps) == f0 + s0 + Interleave(fields, seps)
  {
    assert ([f0] + fields)[1..] == fields;
    assert ([s0] + seps)[1..] == seps;
  }

  /** A separator-free text stays so when the scan passes a character that starts no separator. */
  lemma SeparatorFreeExtend(s: string, start: nat, p: nat)
    requires start <= p < |s| && SeparatorAt(s, p) == 0
    requires SeparatorFree(s[start..p])
    requires start < p ==> SeparatorAt(s, p - 1) == 0
    ensures SeparatorFree(s[start..p + 1])
  {
    var f, g := s[start..p], s[start..p + 1];
    forall i | 0 <= i < |g|
      ensures g[i] != '\t' && (i + 1 < |g| ==> !(IsSpace(g[i]) && IsSpace(g[i + 1])))
    {
      if i + 1 < |f| {
        assert g[i] == f[i] && g[i + 1] == f[i + 1];
      } else if i + 1 == |f| {
        assert g[i] == f[i] && g[i] == s[p - 1] && g[i + 1] == s[p];
      } else {
        assert g[i] == s[p];
      }
    }
  }

  /** A separator-free field in front of separator-free fields. */
  lemma SeparatorFreeCons(f0: string, rest: seq<string>)
    requires SeparatorFree(f0)
    requires forall k :: 0 <= k < |rest| ==> SeparatorFree(rest[k])
    ensures forall k :: 0 <= k < |[f0] + rest| ==> SeparatorFree(([f0] + rest)[k])
  {
    forall k | 0 <= k < |[f0] + rest|
      ensures SeparatorFree(([f0] + rest)[k])
    {
      if k > 0 {
        assert ([f0] + rest)[k] == rest[k - 1];
      }
    }
  }

  /** Any field in front of fields that all start clear. */
  lemma ClearStartCons(f0: string, rest: seq<string>)
    requires forall k :: 0 <= k < |rest| ==> ClearStart(rest[k])
    ensures forall k :: 1 <= k < |[f0] + rest| ==> ClearStart(([f0] + rest)[k])
  {
    forall k | 1 <= k < |[f0] + rest|
      ensures ClearStart(([f0] + rest)[k])
    {
      assert ([f0] + rest)[k] == rest[k - 1];
    }
  }

  /** At a separator the split closes the field and starts the next one after it. */
  lemma SplitAtSeparator(s: string, start: nat, p: nat)
    requires start <= p < |s| && SeparatorAt(s, p) > 0
    ensures SplitFrom(s, start, p) == [s[start..p]] + SplitFrom(s, p + SeparatorAt(s, p), p + SeparatorAt(s, p))
    ensures SeparatorsFrom(s, p) == [s[p..p + SeparatorAt(s, p)]] + SeparatorsFrom(s, p + SeparatorAt(s, p))
  {
  }

  /** Away from a separator the split moves on by one character. */
  lemma SplitPastCharacter(s: string, start: nat, p: nat)
    requires start <= p < |s| && SeparatorAt(s, p) == 0
    ensures SplitFrom(s, start, p) == SplitFrom(s, start, p + 1)
    ensures SeparatorsFrom(s, p) == SeparatorsFrom(s, p + 1)
  {
  }

  /** The first field is a prefix of the text from `start`. */
  lemma {:induction false} SplitFromFirst(s: string, start: nat, p: nat)
    requires start <= p <= |s|
    ensures |SplitFrom(s, start, p)| > 0
    ensures start + |SplitFrom(s, start, p)[0]| <= |s|
    ensures SplitFrom(s, start, p)[0] == s[start..start + |SplitFrom(s, start, p)[0]|]
    decreases |s| - p
  {
    if p < |s| && SeparatorAt(s, p) == 0 {
      SplitFromFirst(s, start, p + 1);
    }
  }

  /** The first field from `q` starts clear when the character at `q` is not whitespace. */
  lemma FirstFieldClear(s: string, q: nat)
    requires q <= |s|
    requires q < |s| ==> !IsSpace(s[q])
    ensures ClearStart(SplitFrom(s, q, q)[0])
  {
    SplitFromFirst(s, q, q);
    var f := SplitFrom(s, q, q)[0];
    if f != [] {
      assert f[0] == s[q];
    }
  }

  /** The fields and separators after a separator at `p` interleave back to the text from `start`. */
  lemma InterleaveAtSeparator(s: string, start: nat, p: nat, rest: seq<string>, restSeps: seq<string>)
    requires start <= p < |s| && SeparatorAt(s, p) > 0
    requires rest == SplitFrom(s, p + SeparatorAt(s, p), p + SeparatorAt(s, p))
    requires restSeps == SeparatorsFrom(s, p + SeparatorAt(s, p))
    requires |rest| == |restSeps| + 1 && Interleave(rest, restSeps) == s[p + SeparatorAt(s, p)..]
    ensures |SplitFrom(s, start, p)| == |SeparatorsFrom(s, p)| + 1
    ensures Interleave(SplitFrom(s, start, p), SeparatorsFrom(s, p)) == s[start..]
  {
    var n := SeparatorAt(s, p);
    SplitAtSeparator(s, start, p);
    InterleaveCons(s[start..p], s[p..p + n], rest, restSeps);
    ThreeSlices(s, start, p, p + n);
  }

  /** The fields and separators from `p` on interleave back to the text from `start`. */
  lemma {:induction false} SplitFromInterleave(s: string, start: nat, p: nat)
    requires start <= p <= |s|
    ensures |SplitFrom(s, start, p)| == |SeparatorsFrom(s, p)| + 1
    ensures Interleave(SplitFrom(s, start, p), SeparatorsFrom(s, p)) == s[start..]
    decreases |s| - p
  {
    if p == |s| {
      assert SplitFrom(s, start, p) == [s[start..]] && SeparatorsFrom(s, p) == [];
      assert Interleave([s[start..]], []) == s[start..];
    } else {
      var n := SeparatorAt(s, p);
      if n > 0 {
        SplitFromInterleave(s, p + n, p + n);
        InterleaveAtSeparator(s, start, p, SplitFrom(s, p + n, p + n), SeparatorsFrom(s, p + n));
      } else {
        SplitPastCharacter(s, start, p);
        SplitFromInterleave(s, start, p + 1);
      }
    }
  }

  /** The separator-free fields after a separator, with a separator-free field before it. */
  lemma SeparatorFreeAtSeparator(s: string, start: nat, p: nat, rest: seq<string>)
    requires start <= p < |s| && SeparatorAt(s, p) > 0
    requires rest == SplitFrom(s, p + SeparatorAt(s, p), p + SeparatorAt(s, p))
    requires SeparatorFree(s[start..p])
    requires forall k :: 0 <= k < |rest| ==> SeparatorFree(rest[k])
    ensures forall k :: 0 <= k < |SplitFrom(s, start, p)| ==> SeparatorFree(SplitFrom(s, start, p)[k])
  {
    SplitAtSeparator(s, start, p);
    SeparatorFreeCons(s[start..p], rest);
  }

  /** The fields from `start` are separator-free. */
  lemma {:induction false} SplitFromSeparatorFree(s: string, start: nat, p: nat)
    requires start <= p <= |s|
    requires SeparatorFree(s[start..p])
    requires start < p ==> SeparatorAt(s, p - 1) == 0
    ensures forall k :: 0 <= k < |SplitFrom(s, start, p)| ==> SeparatorFree(SplitFrom(s, start, p)[k])
    decreases |s| - p
  {
    if p == |s| {
      assert s[start..p] == s[start..];
      assert SplitFrom(s, start, p) == [s[start..p]];
    } else if SeparatorAt(s, p) > 0 {
      var n := SeparatorAt(s, p);
      assert s[p + n..p + n] == [];
      SplitFromSeparatorFree(s, p + n, p + n);
      SeparatorFreeAtSeparator(s, start, p, SplitFrom(s, p + n, p + n));
    } else {
      SeparatorFreeExtend(s, start, p);
      SplitPastCharacter(s, start, p);
      SplitFromSeparatorFree(s, start, p + 1);
      assert SplitFrom(s, start, p) == SplitFrom(s, start, p + 1);
    }
  }

  /** Every separator from `p` on is a lone tab or a whitespace run of two or more. */
  lemma {:induction false} SeparatorsMatch(s: string, p: nat)
    requires p <= |s|
    ensures forall k :: 0 <= k < |SeparatorsFrom(s, p)| ==> IsSeparator(SeparatorsFrom(s, p)[k])
    decreases |s| - p
  {
    if p < |s| {
      var n := SeparatorAt(s, p);
      if n > 0 {
        SeparatorMatches(s, p);
        SeparatorsMatch(s, p + n);
        SplitAtSeparator(s, p, p);
        var seps, rest := SeparatorsFrom(s, p), SeparatorsFrom(s, p + n);
        assert forall k :: 1 <= k < |seps| ==> seps[k] == rest[k - 1];
      } else {
        SplitPastCharacter(s, p, p);
        SeparatorsMatch(s, p + 1);
      }
    }
  }

  /** Fields that end clear after a separator, with the field before it, which ends clear too. */
  lemma ClearEndsAtSeparator(s: string, start: nat, p: nat, rest: seq<string>)
    requires start <= p < |s| && SeparatorAt(s, p) > 0
    requires start < p ==> SeparatorAt(s, p - 1) == 0
    requires rest == SplitFrom(s, p + SeparatorAt(s, p), p + SeparatorAt(s, p))
    requires forall k :: 0 <= k < |rest| - 1 ==> ClearEnd(rest[k])
    ensures forall k :: 0 <= k < |SplitFrom(s, start, p)| - 1 ==> ClearEnd(SplitFrom(s, start, p)[k])
  {
    FieldEndClear(s, start, p);
    SplitAtSeparator(s, start, p);
    var fields := SplitFrom(s, start, p);
    assert fields == [s[start..p]] + rest;
    forall k | 0 <= k < |fields| - 1
      ensures ClearEnd(fields[k])
    {
      if k > 0 {
        assert fields[k] == rest[k - 1];
      }
    }
  }

  /** Every field from `start` but the last ends with a character that is not whitespace, or is empty. */
  lemma {:induction false} SplitFromClearEnds(s: string, start: nat, p: nat)
    requires start <= p <= |s|
    requires start < p ==> SeparatorAt(s, p - 1) == 0
    ensures forall k :: 0 <= k < |SplitFrom(s, start, p)| - 1 ==> ClearEnd(SplitFrom(s, start, p)[k])
    decreases |s| - p
  {
    if p == |s| {
      assert |SplitFrom(s, start, p)| == 1;
    } else if SeparatorAt(s, p) > 0 {
      var n := SeparatorAt(s, p);
      assert s[p + n..p + n] == [];
      SplitFromClearEnds(s, p + n, p + n);
      ClearEndsAtSeparator(s, start, p, SplitFrom(s, p + n, p + n));
    } else {
      SplitPastCharacter(s, start, p);
      SplitFromClearEnds(s, start, p + 1);
    }
  }

  /** Every field after the first starts with a character that is not whitespace, or is empty. */
  lemma {:induction false} SplitFromClearStarts(s: string, start: nat, p: nat)
    requires start <= p <= |s|
    ensures forall k :: 1 <= k < |SplitFrom(s, start, p)| ==> ClearStart(SplitFrom(s, start, p)[k])
    decreases |s| - p
  {
    if p < |s| {
      var n := SeparatorAt(s, p);
      if n > 0 {
        SplitFromClearStarts(s, p + n, p + n);
        FirstFieldClear(s, p + n);
        SplitAtSeparator(s, start, p);
        ClearStartCons(s[start..p], SplitFrom(s, p + n, p + n));
      } else {
        SplitPastCharacter(s, start, p);
        SplitFromClearStarts(s, start, p + 1);
      }
    }
  }

  /**
   * `re.split(r"\s{2,}|\t+", s)`: the fields interleaved with the separators
   * give back `s`; no field holds a tab or two whitespace characters in a
   * row; each separator is a lone tab or a whitespace run of two or more,
   * with no whitespace on either side of it.
   */
  lemma SplitFieldsShape(s: string)
    ensures |SplitFields(s)| == |SeparatorsFrom(s, 0)| + 1
    ensures Interleave(SplitFields(s), SeparatorsFrom(s, 0)) == s
    ensures WellSplit(SplitFields(s), SeparatorsFrom(s, 0))
  {
    SplitFromInterleave(s, 0, 0);
    SplitFromSeparatorFree(s, 0, 0);
    SeparatorsMatch(s, 0);
    SplitFromClearEnds(s, 0, 0);
    SplitFromClearStarts(s, 0, 0);
  }

  /**
   * The fields from `start` are all non-empty when the text from `start`
   * is non-empty and does not end with whitespace, and the first field
   * already has a character or starts with one that is not whitespace.
   */
  lemma {:induction false} SplitFromNonEmpty(s: string, start: nat, p: nat)
    requires start <= p <= |s| && start < |s| && !IsSpace(s[|s| - 1])
    requires start < p || !IsSpace(s[start])
    ensures forall k :: 0 <= k < |SplitFrom(s, start, p)| ==> SplitFrom(s, start, p)[k] != []
    decreases |s| - p
  {
    if p < |s| {
      var n := SeparatorAt(s, p);
      if n > 0 {
        assert IsSpace(s[p + n - 1]);
        SplitFromNonEmpty(s, p + n, p + n);
        var fields := SplitFrom(s, start, p);
        assert fields[1..] == SplitFrom(s, p + n, p + n);
        forall k | 0 <= k < |fields|
          ensures fields[k] != []
        {
          if k > 0 {
            assert fields[k] == fields[1..][k - 1];
          }
        }
      } else {
        SplitFromNonEmpty(s, start, p + 1);
      }
    }
  }

  /** A stripped, non-empty line splits into non-empty fields. */
  lemma SplitFieldsNonEmpty(s: string)
    requires s == Strip(s) && s != []
    ensures forall k :: 0 <= k < |SplitFields(s)| ==> SplitFields(s)[k] != []
  {
    SplitFromNonEmpty(s, 0, 0);
  }

  // ---------------------------------------------------------------------
  // Lines, files and batches
  // ---------------------------------------------------------------------

  /**
   * A line gives no record exactly when it is blank, a `release name`
   * header, has fewer than two fields, or has no date in its second field
   * nor on the whole line.
   */
  lemma ParseLineNone(line: string, sourceYear: int)
    ensures var raw := ReplaceChar(line, Nbsp, ' ');
      var fields := SplitFields(Strip(raw));
      ParseLine(line, sourceYear).None? <==>
        IsSkippedLine(raw) || |fields| < 2 ||
        (SearchDate(Strip(fields[1])).None? && SearchDate(raw).None?)
  {
  }

  /**
   * A record carries its source year and no page URL, and its time is the
   * converted leftmost time of the line, or "" exactly when the line has none;
   * its title, period and notes are those read from the first field.
   */
  lemma ParseLineRecord(line: string, sourceYear: int)
    requires ParseLine(line, sourceYear).Some?
    ensures var r := ParseLine(line, sourceYear).value;
      r.sourceYearPage == sourceYear && r.yearPageUrl.None?
    ensures var r := ParseLine(line, sourceYear).value;
      var t := NormalizeTime24h(ReplaceChar(line, Nbsp, ' '));
      (r.time == "" <==> t.None?) && (t.Some? ==> r.time == t.value)
    ensures var r := ParseLine(line, sourceYear).value;
      var fields := SplitFields(Strip(ReplaceChar(line, Nbsp, ' ')));
      |fields| >= 2 &&
      (r.releaseTitle, Period(r.periodYear, r.periodMonth, r.periodQuarter), r.notes) == TitleParts(Strip(fields[0]))
  {
  }

  /**
   * The date of a record uses the month (1..12) and day of the date found in
   * the second field or else on the whole line, with its explicit year or
   * else the source year.
   */
  lemma ParseLineDate(line: string, sourceYear: int)
    requires ParseLine(line, sourceYear).Some?
    ensures var raw := ReplaceChar(line, Nbsp, ' ');
      var fields := SplitFields(Strip(raw));
      |fields| >= 2 && LineDate(raw, fields).Some? &&
      var dm := LineDate(raw, fields).value;
      1 <= dm.month <= 12 &&
      ParseLine(line, sourceYear).value.date ==
        IsoDate(if dm.year.Some? then dm.year.value else sourceYear, dm.month, dm.day)
  {
  }

  /** With a four-digit source year the record's date reads back as `YYYY-MM-DD` with a month of 1..12. */
  lemma ParseLineDateText(line: string, sourceYear: int)
    requires ParseLine(line, sourceYear).Some? && 0 <= sourceYear < 10000
    ensures var d := ParseLine(line, sourceYear).value.date;
      |d| == 10 && d[4] == '-' && d[7] == '-' &&
      AllDigits(d[..4]) && AllDigits(d[5..7]) && AllDigits(d[8..]) &&
      1 <= DecimalValue(d[5..7]) <= 12
  {
    ParseLineDate(line, sourceYear);
    var raw := ReplaceChar(line, Nbsp, ' ');
    var dm := LineDate(raw, SplitFields(Strip(raw))).value;
    SearchDateLeftmost(Strip(SplitFields(Strip(raw))[1]));
    SearchDateLeftmost(raw);
    IsoDateRoundTrip(if dm.year.Some? then dm.year.value else sourceYear, dm.month, dm.day);
  }

  /** The records of a file come in line order: a file split in two gives the records of each part. */
  lemma {:induction false} ParseLinesAppend(a: seq<string>, b: seq<string>, sourceYear: int)
    ensures ParseLines(a + b, sourceYear) == ParseLines(a, sourceYear) + ParseLines(b, sourceYear)
    decreases |b|
  {
    if b == [] {
      assert a + b == a;
    } else {
      var b' := b[..|b| - 1];
      assert (a + b)[..|a + b| - 1] == a + b';
      assert (a + b)[|a + b| - 1] == b[|b| - 1];
      ParseLinesAppend(a, b', sourceYear);
    }
  }

  /** At most one record per line, each carrying the source year and no page URL. */
  lemma {:induction false} ParseLinesShape(lines: seq<string>, sourceYear: int)
    ensures |ParseLines(lines, sourceYear)| <= |lines|
    ensures forall k :: 0 <= k < |ParseLines(lines, sourceYear)| ==>
      ParseLines(lines, sourceYear)[k].sourceYearPage == sourceYear &&
      ParseLines(lines, sourceYear)[k].yearPageUrl.None?
    decreases |lines|
  {
    if lines != [] {
      ParseLinesShape(lines[..|lines| - 1], sourceYear);
    }
  }

  /** A batch is the in-order concatenation of the years' files; years without a file add nothing. */
  lemma {:induction false} BatchRecordsAppend(a: seq<int>, b: seq<int>, files: map<int, seq<string>>)
    ensures BatchRecords(a + b, files) == BatchRecords(a, files) + BatchRecords(b, files)
    decreases |b|
  {
    if b == [] {
      assert a + b == a;
    } else {
      var b' := b[..|b| - 1];
      assert (a + b)[..|a + b| - 1] == a + b' && (a + b)[|a + b| - 1] == b[|b| - 1];
      BatchRecordsAppend(a, b', files);
    }
  }

  /** One year's share of a batch: its file's records, or nothing when the file is missing. */
  lemma BatchRecordsSingle(y: int, files: map<int, seq<string>>)
    ensures BatchRecords([y], files) == if y in files then ParseLines(files[y], y) else []
  {
    assert [y][..0] == [];
  }
}
