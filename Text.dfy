/**
 * Python string primitives used by the schedule parsers: character classes,
 * `strip`, `split`, case mapping, `str.join`, `in`, and integer formatting
 * and parsing with `int(...)` / `f"{n:0Wd}"`.
 */
module Text {
  import opened Wrappers

  // ---------------------------------------------------------------------
  // Character classes
  // ---------------------------------------------------------------------

  /** Python's `str.isspace`, which is also what `\s` matches in a `str` pattern. */
  predicate IsSpace(c: char) {
    c == ' ' || ('\t' <= c <= '\r') || ('\U{1C}' <= c <= '\U{1F}')
    || c == '\U{85}' || c == '\U{A0}' || c == '\U{1680}'
    || ('\U{2000}' <= c <= '\U{200A}') || c == '\U{2028}' || c == '\U{2029}'
    || c == '\U{202F}' || c == '\U{205F}' || c == '\U{3000}'
  }

  /** The no-break space U+00A0 that the parsers replace by an ordinary space. */
  const Nbsp: char := '\U{A0}'

  predicate IsDigit(c: char) { '0' <= c <= '9' }

  predicate IsUpperAscii(c: char) { 'A' <= c <= 'Z' }

  predicate IsLowerAscii(c: char) { 'a' <= c <= 'z' }

  predicate IsAsciiLetter(c: char) { IsUpperAscii(c) || IsLowerAscii(c) }

  /** A regular-expression word character (`\w`), on ASCII. */
  predicate IsWordChar(c: char) { IsAsciiLetter(c) || IsDigit(c) || c == '_' }

  predicate AllDigits(s: string) { forall k :: 0 <= k < |s| ==> IsDigit(s[k]) }

  predicate NoSpace(s: string) { forall k :: 0 <= k < |s| ==> !IsSpace(s[k]) }

  // ---------------------------------------------------------------------
  // Case mapping
  // ---------------------------------------------------------------------

  function LowerChar(c: char): (r: char)
    ensures IsUpperAscii(c) ==> IsLowerAscii(r)
    ensures !IsUpperAscii(c) ==> r == c
  {
    if IsUpperAscii(c) then (c as int + 32) as char else c
  }

  function UpperChar(c: char): (r: char)
    ensures IsLowerAscii(c) ==> IsUpperAscii(r)
    ensures !IsLowerAscii(c) ==> r == c
  {
    if IsLowerAscii(c) then (c as int - 32) as char else c
  }

  /** `s.lower()` (ASCII letters). */
  function Lower(s: string): (r: string)
    ensures |r| == |s|
    ensures forall k :: 0 <= k < |s| ==> r[k] == LowerChar(s[k])
  {
    seq(|s|, k requires 0 <= k < |s| => LowerChar(s[k]))
  }

  /** `s.upper()` (ASCII letters). */
  function Upper(s: string): (r: string)
    ensures |r| == |s|
    ensures forall k :: 0 <= k < |s| ==> r[k] == UpperChar(s[k])
  {
    seq(|s|, k requires 0 <= k < |s| => UpperChar(s[k]))
  }

  /**
   * `s.title()`: a letter that follows a cased character is lower-cased, any
   * other character is title-cased; `prevCased` says whether the character
   * before `s` was cased.
   */
  function TitleFrom(s: string, prevCased: bool): (r: string)
    ensures |r| == |s|
    ensures forall k :: 0 <= k < |s| ==> r[k] == LowerChar(s[k]) || r[k] == UpperChar(s[k])
    decreases |s|
  {
    if s == [] then []
    else [if prevCased then LowerChar(s[0]) else UpperChar(s[0])] + TitleFrom(s[1..], IsAsciiLetter(s[0]))
  }

  function Title(s: string): (r: string)
    ensures |r| == |s|
    ensures forall k :: 0 <= k < |s| ==> r[k] == LowerChar(s[k]) || r[k] == UpperChar(s[k])
  {
    TitleFrom(s, false)
  }

  /** Case-insensitive test that `word` (lower-case ASCII) occurs in `s` at `i`. */
  predicate MatchesAt(s: string, i: nat, word: string) {
    i + |word| <= |s| && Lower(s[i..i + |word|]) == word
  }

  /** A regular-expression word boundary at position `i` of `s`. */
  predicate WordBoundary(s: string, i: nat)
    requires i <= |s|
  {
    (i > 0 && IsWordChar(s[i - 1])) != (i < |s| && IsWordChar(s[i]))
  }

  /** The index of the first word of `words` that occurs at `i` (case-insensitive). */
  function WordAt(s: string, i: nat, words: seq<string>, a: nat): (r: Option<nat>)
    requires a <= |words|
    ensures r.Some? ==> a <= r.value < |words| && MatchesAt(s, i, words[r.value])
    decreases |words| - a
  {
    if a == |words| then None
    else if MatchesAt(s, i, words[a]) then Some(a)
    else WordAt(s, i, words, a + 1)
  }

  // ---------------------------------------------------------------------
  // Stripping, replacing, joining
  // ---------------------------------------------------------------------

  /** `s.lstrip()`. */
  function TrimStart(s: string): (r: string)
    ensures |r| <= |s| && r == s[|s| - |r|..]
    ensures r == [] || !IsSpace(r[0])
    ensures forall k :: 0 <= k < |s| - |r| ==> IsSpace(s[k])
    decreases |s|
  {
    if |s| > 0 && IsSpace(s[0]) then TrimStart(s[1..]) else s
  }

  /** `s.rstrip()`. */
  function TrimEnd(s: string): (r: string)
    ensures |r| <= |s| && r == s[..|r|]
    ensures r == [] || !IsSpace(r[|r| - 1])
    ensures forall k :: |r| <= k < |s| ==> IsSpace(s[k])
    decreases |s|
  {
    if |s| > 0 && IsSpace(s[|s| - 1]) then TrimEnd(s[..|s| - 1]) else s
  }

  /** `s.strip()`. */
  function Strip(s: string): (r: string)
    ensures |r| <= |s|
    ensures r == [] || (!IsSpace(r[0]) && !IsSpace(r[|r| - 1]))
  {
    TrimEnd(TrimStart(s))
  }

  /** `s.rstrip(chars)` for an explicit character set. */
  function RStripChars(s: string, chars: set<char>): (r: string)
    ensures |r| <= |s| && r == s[..|r|]
    ensures r == [] || r[|r| - 1] !in chars
    decreases |s|
  {
    if |s| > 0 && s[|s| - 1] in chars then RStripChars(s[..|s| - 1], chars) else s
  }

  /** Stripping trailing characters stops at a kept character: a prefix ending in one survives. */
  lemma {:induction false} RStripCharsKeeps(s: string, chars: set<char>, n: nat)
    requires 0 < n <= |s| && s[n - 1] !in chars
    ensures |RStripChars(s, chars)| >= n
    decreases |s|
  {
    if |s| > n {
      if s[|s| - 1] in chars {
        RStripCharsKeeps(s[..|s| - 1], chars, n);
      }
    }
  }

  /** `s.strip()` keeps any prefix that starts and ends with a non-space character. */
  lemma {:induction false} StripKeepsPrefix(s: string, pre: string)
    requires StartsWith(s, pre) && pre != []
    requires !IsSpace(pre[0]) && !IsSpace(pre[|pre| - 1])
    ensures StartsWith(Strip(s), pre)
  {
    assert TrimStart(s) == s;
    TrimEndKeeps(s, |pre|);
  }

  lemma {:induction false} TrimEndKeeps(s: string, n: nat)
    requires 0 < n <= |s| && !IsSpace(s[n - 1])
    ensures |TrimEnd(s)| >= n
    decreases |s|
  {
    if |s| > n {
      if IsSpace(s[|s| - 1]) {
        TrimEndKeeps(s[..|s| - 1], n);
      }
    }
  }

  /** `s.replace(a, b)` for single characters. */
  function ReplaceChar(s: string, a: char, b: char): (r: string)
    ensures |r| == |s|
    ensures forall k :: 0 <= k < |s| ==> r[k] == (if s[k] == a then b else s[k])
  {
    seq(|s|, k requires 0 <= k < |s| => if s[k] == a then b else s[k])
  }

  /** `s.replace(c, "")`. */
  function RemoveChar(s: string, c: char): (r: string)
    ensures c !in r
    ensures |r| <= |s|
    decreases |s|
  {
    if s == [] then []
    else (if s[0] == c then [] else [s[0]]) + RemoveChar(s[1..], c)
  }

  /** `sep.join(parts)`. */
  function Join(parts: seq<string>, sep: string): (r: string)
    ensures parts == [] ==> r == []
    decreases |parts|
  {
    if parts == [] then []
    else if |parts| == 1 then parts[0]
    else parts[0] + sep + Join(parts[1..], sep)
  }

  /** A character absent from every part and from the separator is absent from the joined text. */
  lemma {:induction false} JoinAvoids(parts: seq<string>, sep: string, c: char)
    requires forall k :: 0 <= k < |parts| ==> c !in parts[k]
    requires c !in sep
    ensures c !in Join(parts, sep)
    decreases |parts|
  {
    if |parts| > 1 {
      JoinAvoids(parts[1..], sep, c);
    }
  }

  /** Joining non-empty parts is empty exactly when there are no parts. */
  lemma JoinEmpty(parts: seq<string>, sep: string)
    requires forall k :: 0 <= k < |parts| ==> parts[k] != []
    ensures Join(parts, sep) == [] <==> parts == []
  {
  }

  predicate StartsWith(s: string, prefix: string) {
    |prefix| <= |s| && s[..|prefix|] == prefix
  }

  /** `needle` occurs in `hay` starting at index `j`. */
  predicate OccursAt(hay: string, needle: string, j: int) {
    0 <= j && j + |needle| <= |hay| && hay[j..j + |needle|] == needle
  }

  /** Python's `needle in hay` for strings. */
  ghost predicate Contains(hay: string, needle: string) {
    exists j :: OccursAt(hay, needle, j)
  }

  /** The same test as `Contains`, by a left-to-right scan from `i`. */
  function ContainsFrom(hay: string, needle: string, i: nat): (r: bool)
    requires i <= |hay|
    ensures r <==> exists j :: i <= j && OccursAt(hay, needle, j)
    decreases |hay| - i
  {
    if i + |needle| > |hay| then false
    else if hay[i..i + |needle|] == needle then assert OccursAt(hay, needle, i); true
    else ContainsFrom(hay, needle, i + 1)
  }

  /** The first index at or after `i` that does not hold whitespace. */
  function SkipSpaces(s: string, i: nat): (r: nat)
    requires i <= |s|
    ensures i <= r <= |s|
    ensures forall k :: i <= k < r ==> IsSpace(s[k])
    ensures r == |s| || !IsSpace(s[r])
    decreases |s| - i
  {
    if i < |s| && IsSpace(s[i]) then SkipSpaces(s, i + 1) else i
  }

  /** The first index at or after `i` that holds whitespace. */
  function SkipNonSpaces(s: string, i: nat): (r: nat)
    requires i <= |s|
    ensures i <= r <= |s|
    ensures forall k :: i <= k < r ==> !IsSpace(s[k])
    ensures r == |s| || IsSpace(s[r])
    decreases |s| - i
  {
    if i < |s| && !IsSpace(s[i]) then SkipNonSpaces(s, i + 1) else i
  }

  /** `s.split()`: the maximal runs of non-whitespace characters. */
  function Words(s: string): seq<string>
    decreases |s|
  {
    var t := TrimStart(s);
    if t == [] then []
    else
      var n := SkipNonSpaces(t, 0);
      [t[..n]] + Words(t[n..])
  }

  /** `" ".join(s.split())`, word by word: whitespace runs collapsed to one space, ends trimmed. */
  function NormalizeSpace(s: string): (r: string)
    ensures |r| <= |s|
    decreases |s|
  {
    if s == [] then []
    else if IsSpace(s[0]) then NormalizeSpace(s[1..])
    else
      var n := SkipNonSpaces(s, 0);
      var rest := NormalizeSpace(s[n..]);
      if rest == [] then s[..n] else s[..n] + " " + rest
  }

  /** Skipping one leading space changes neither `lstrip` nor `split`. */
  lemma WordsSkipSpace(s: string)
    requires s != [] && IsSpace(s[0])
    ensures TrimStart(s) == TrimStart(s[1..])
    ensures Words(s) == Words(s[1..])
  {
  }

  /** `NormalizeSpace` is the joining of the words of `s` by single spaces. */
  lemma {:induction false} NormalizeSpaceIsJoin(s: string)
    ensures NormalizeSpace(s) == Join(Words(s), " ")
    decreases |s|
  {
    if s == [] {
    } else if IsSpace(s[0]) {
      WordsSkipSpace(s);
      NormalizeSpaceIsJoin(s[1..]);
    } else {
      var n := SkipNonSpaces(s, 0);
      assert TrimStart(s) == s;
      assert Words(s) == [s[..n]] + Words(s[n..]);
      NormalizeSpaceIsJoin(s[n..]);
      JoinEmptyWords(s[n..]);
    }
  }

  /** A joining is at least as long as its first part. */
  lemma JoinCoversFirst(parts: seq<string>, sep: string)
    requires parts != []
    ensures |Join(parts, sep)| >= |parts[0]|
  {
  }

  /** Every word of `s` is non-empty, so no words means an empty joining. */
  lemma JoinEmptyWords(s: string)
    ensures Join(Words(s), " ") == [] <==> Words(s) == []
  {
    var t := TrimStart(s);
    if t != [] {
      var n := SkipNonSpaces(t, 0);
      assert Words(s)[0] == t[..n];
      JoinCoversFirst(Words(s), " ");
    }
  }

  // ---------------------------------------------------------------------
  // Integers: int(digits), str(n), f"{n:0Wd}"
  // ---------------------------------------------------------------------

  function DigitValue(c: char): (r: nat)
    requires IsDigit(c)
    ensures r < 10
  {
    c as int - '0' as int
  }

  function DigitChar(d: nat): (r: char)
    requires d < 10
    ensures IsDigit(r) && DigitValue(r) == d
  {
    ('0' as int + d) as char
  }

  /** `int(s)` for a string of ASCII digits. */
  function DecimalValue(s: string): nat
    requires AllDigits(s)
    decreases |s|
  {
    if s == [] then 0 else DecimalValue(s[..|s| - 1]) * 10 + DigitValue(s[|s| - 1])
  }

  /** `str(n)` for a natural number. */
  function NatToDecimal(n: nat): (r: string)
    ensures AllDigits(r) && |r| >= 1
    decreases n
  {
    if n < 10 then [DigitChar(n)] else NatToDecimal(n / 10) + [DigitChar(n % 10)]
  }

  /** `str(i)` for any integer. */
  function IntToString(i: int): string {
    if i < 0 then "-" + NatToDecimal(-i) else NatToDecimal(i)
  }

  /** `n` zero digits. */
  function Zeros(n: nat): (r: string)
    ensures |r| == n && forall k :: 0 <= k < n ==> r[k] == '0'
  {
    seq(n, _ => '0')
  }

  /** Left-pads with '0' up to `width` characters. */
  function ZeroPad(s: string, width: nat): (r: string)
    ensures |r| == if |s| < width then width else |s|
    ensures r[|r| - |s|..] == s
    ensures forall k :: 0 <= k < |r| - |s| ==> r[k] == '0'
  {
    if |s| < width then Zeros(width - |s|) + s else s
  }

  /** `f"{n:0{width}d}"` for an integer: the sign counts towards the width. */
  function FormatInt(n: int, width: nat): string {
    if n < 0 then "-" + ZeroPad(NatToDecimal(-n), if width > 0 then width - 1 else 0)
    else ZeroPad(NatToDecimal(n), width)
  }

  lemma {:induction false} DecimalValueAppend(s: string, c: char)
    requires AllDigits(s) && IsDigit(c)
    ensures AllDigits(s + [c]) && DecimalValue(s + [c]) == DecimalValue(s) * 10 + DigitValue(c)
  {
    assert (s + [c])[..|s + [c]| - 1] == s;
  }

  /** `int(str(n)) == n`. */
  lemma {:induction false} NatToDecimalRoundTrip(n: nat)
    ensures DecimalValue(NatToDecimal(n)) == n
    decreases n
  {
    if n < 10 {
      assert NatToDecimal(n)[..0] == [];
    } else {
      NatToDecimalRoundTrip(n / 10);
      DecimalValueAppend(NatToDecimal(n / 10), DigitChar(n % 10));
    }
  }

  /** Leading zeros do not change the value of a digit string. */
  lemma {:induction false} DecimalValueLeadingZero(s: string)
    requires AllDigits(s)
    ensures AllDigits(['0'] + s) && DecimalValue(['0'] + s) == DecimalValue(s)
    decreases |s|
  {
    if s == [] {
      assert (['0'] + s)[..0] == [];
    } else {
      var init := s[..|s| - 1];
      DecimalValueLeadingZero(init);
      assert (['0'] + s)[..|['0'] + s| - 1] == ['0'] + init;
    }
  }

  /** Leading zeros do not change the value of a digit string. */
  lemma {:induction false} ZerosValue(n: nat, s: string)
    requires AllDigits(s)
    ensures AllDigits(Zeros(n) + s) && DecimalValue(Zeros(n) + s) == DecimalValue(s)
    decreases n
  {
    if n > 0 {
      ZerosValue(n - 1, s);
      DecimalValueLeadingZero(Zeros(n - 1) + s);
      assert Zeros(n) + s == ['0'] + (Zeros(n - 1) + s);
    } else {
      assert Zeros(n) + s == s;
    }
  }

  lemma ZeroPadValue(s: string, width: nat)
    requires AllDigits(s)
    ensures AllDigits(ZeroPad(s, width)) && DecimalValue(ZeroPad(s, width)) == DecimalValue(s)
  {
    if |s| < width {
      ZerosValue(width - |s|, s);
    }
  }

  /** Reading back a number written with `f"{n:0Wd}"` gives `n`. */
  lemma FormatNatRoundTrip(n: nat, width: nat)
    ensures AllDigits(FormatInt(n, width)) && DecimalValue(FormatInt(n, width)) == n
  {
    NatToDecimalRoundTrip(n);
    ZeroPadValue(NatToDecimal(n), width);
  }

  /** A number below `10^w` written with width `w` takes exactly `w` characters. */
  lemma {:induction false} NatToDecimalLength(n: nat, w: nat)
    requires 1 <= w && n < Pow10(w)
    ensures |NatToDecimal(n)| <= w
    decreases n
  {
    if n >= 10 {
      NatToDecimalLength(n / 10, w - 1);
    }
  }

  function Pow10(w: nat): (r: nat)
    ensures r >= 1
  {
    if w == 0 then 1 else 10 * Pow10(w - 1)
  }

  /** A string of `w` digits denotes a number below `10^w`. */
  lemma {:induction false} DecimalValueBound(s: string)
    requires AllDigits(s)
    ensures DecimalValue(s) < Pow10(|s|)
    decreases |s|
  {
    if s != [] {
      DecimalValueBound(s[..|s| - 1]);
    }
  }

  lemma FormatNatWidth(n: nat, w: nat)
    requires 1 <= w && n < Pow10(w)
    ensures |FormatInt(n, w)| == w
  {
    NatToDecimalLength(n, w);
  }
}
