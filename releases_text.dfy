/**
 * js/releases.js, text helpers: `cleanText`, `escapeHtml`, `getReleaseYear`,
 * `formatDateFromIso` and `toDateValue` (with the `Date.UTC` arithmetic it
 * relies on). script.js holds a copy of each of these with the same logic.
 */
module ReleaseText {
  import opened Options
  import opened JsStrings

  /** `cleanText`: a string field trimmed, with "---" and blanks read as missing (""). */
  function CleanText(value: Option<string>): (r: string)
    ensures IsTrimmed(r)
    ensures r != [] ==> value.Some? && r == Trim(value.value) && r != "---"
    ensures value.Some? && Trim(value.value) != "---" ==> r == Trim(value.value)
    ensures value.None? || Trim(value.value) == "---" ==> r == []
  {
    if value.None? then []
    else
      var t := Trim(value.value);
      if t == [] || t == "---" then [] else t
  }

  lemma CleanTextIdempotent(value: Option<string>)
    ensures CleanText(Some(CleanText(value))) == CleanText(value)
  {
  }

  // ---------------------------------------------------------------- escapeHtml

  /** `s.replace(/c/g, rep)` for a single character `c`. */
  function ReplaceChar(s: string, c: char, rep: string): string
    decreases |s|
  {
    if s == [] then [] else (if s[0] == c then rep else [s[0]]) + ReplaceChar(s[1..], c, rep)
  }

  /** `escapeHtml`: the five replacements in the order the script applies them. */
  function EscapeHtml(s: string): string {
    ReplaceChar(ReplaceChar(ReplaceChar(ReplaceChar(ReplaceChar(s,
      '&', "&amp;"), '<', "&lt;"), '>', "&gt;"), '"', "&quot;"), '\'', "&#39;")
  }

  /** The entity one character becomes. */
  function EscapeChar(c: char): string {
    if c == '&' then "&amp;"
    else if c == '<' then "&lt;"
    else if c == '>' then "&gt;"
    else if c == '"' then "&quot;"
    else if c == '\'' then "&#39;"
    else [c]
  }

  /** Every character replaced by its entity independently of the others. */
  function EscapeEach(s: string): string
    decreases |s|
  {
    if s == [] then [] else EscapeChar(s[0]) + EscapeEach(s[1..])
  }

  lemma {:induction false} ReplaceConcat(a: string, b: string, c: char, rep: string)
    ensures ReplaceChar(a + b, c, rep) == ReplaceChar(a, c, rep) + ReplaceChar(b, c, rep)
    decreases |a|
  {
    if a != [] {
      ReplaceConcat(a[1..], b, c, rep);
      assert (a + b)[0] == a[0];
      assert (a + b)[1..] == a[1..] + b;
      var head := if a[0] == c then rep else [a[0]];
      assert ReplaceChar(a + b, c, rep) == head + ReplaceChar(a[1..] + b, c, rep);
      assert ReplaceChar(a, c, rep) == head + ReplaceChar(a[1..], c, rep);
    } else {
      assert a + b == b;
    }
  }

  lemma {:induction false} ReplaceAbsent(s: string, c: char, rep: string)
    requires c !in s
    ensures ReplaceChar(s, c, rep) == s
    decreases |s|
  {
    if s != [] {
      ReplaceAbsent(s[1..], c, rep);
    }
  }

  lemma ReplaceSingle(x: char, c: char, rep: string)
    ensures ReplaceChar([x], c, rep) == if x == c then rep else [x]
  {
    assert [x][1..] == [];
  }

  lemma EscapeHtmlConcat(a: string, b: string)
    ensures EscapeHtml(a + b) == EscapeHtml(a) + EscapeHtml(b)
  {
    var a1, b1 := ReplaceChar(a, '&', "&amp;"), ReplaceChar(b, '&', "&amp;");
    ReplaceConcat(a, b, '&', "&amp;");
    var a2, b2 := ReplaceChar(a1, '<', "&lt;"), ReplaceChar(b1, '<', "&lt;");
    ReplaceConcat(a1, b1, '<', "&lt;");
    var a3, b3 := ReplaceChar(a2, '>', "&gt;"), ReplaceChar(b2, '>', "&gt;");
    ReplaceConcat(a2, b2, '>', "&gt;");
    var a4, b4 := ReplaceChar(a3, '"', "&quot;"), ReplaceChar(b3, '"', "&quot;");
    ReplaceConcat(a3, b3, '"', "&quot;");
    ReplaceConcat(a4, b4, '\'', "&#39;");
  }

  /** One pass over text that is a single character or holds no match. */
  lemma Pass(s: string, c: char, rep: string, out: string)
    requires (|s| == 1 && s[0] == c && out == rep) || (c !in s && out == s)
    ensures ReplaceChar(s, c, rep) == out
  {
    if |s| == 1 && s[0] == c {
      assert s[1..] == [];
    } else {
      ReplaceAbsent(s, c, rep);
    }
  }

  lemma EscapeHtmlOneChar(x: char)
    ensures EscapeHtml([x]) == EscapeChar(x)
  {
    var e := EscapeChar(x);
    var s1 := if x == '&' then e else [x];
    Pass([x], '&', "&amp;", s1);
    var s2 := if x == '<' then e else s1;
    Pass(s1, '<', "&lt;", s2);
    var s3 := if x == '>' then e else s2;
    Pass(s2, '>', "&gt;", s3);
    var s4 := if x == '"' then e else s3;
    Pass(s3, '"', "&quot;", s4);
    Pass(s4, '\'', "&#39;", e);
  }

  /**
   * The chained replacements act on each character on its own: the `&` pass
   * runs first, so no entity a later pass writes is escaped again.
   */
  lemma {:induction false} EscapeHtmlPerChar(s: string)
    ensures EscapeHtml(s) == EscapeEach(s)
    decreases |s|
  {
    if s != [] {
      assert s == [s[0]] + s[1..];
      EscapeHtmlConcat([s[0]], s[1..]);
      EscapeHtmlOneChar(s[0]);
      EscapeHtmlPerChar(s[1..]);
    }
  }

  predicate IsMarkupChar(c: char) { c == '<' || c == '>' || c == '"' || c == '\'' }

  /** Escaped text holds no tag or attribute delimiter. */
  lemma {:induction false} EscapedHasNoMarkup(s: string)
    ensures forall i :: 0 <= i < |EscapeHtml(s)| ==> !IsMarkupChar(EscapeHtml(s)[i])
    decreases |s|
  {
    EscapeHtmlPerChar(s);
    EscapeEachNoMarkup(s);
  }

  lemma {:induction false} EscapeEachNoMarkup(s: string)
    ensures forall i :: 0 <= i < |EscapeEach(s)| ==> !IsMarkupChar(EscapeEach(s)[i])
    decreases |s|
  {
    if s != [] {
      EscapeEachNoMarkup(s[1..]);
      var e := EscapeChar(s[0]);
      assert forall i :: 0 <= i < |e| ==> !IsMarkupChar(e[i]);
      var r := EscapeEach(s);
      assert r == e + EscapeEach(s[1..]);
      forall i | 0 <= i < |r| ensures !IsMarkupChar(r[i]) {
        if i >= |e| { assert r[i] == EscapeEach(s[1..])[i - |e|]; }
      }
    }
  }

  predicate StartsWith(s: string, p: string) { |p| <= |s| && s[..|p|] == p }

  /** Reads the five entities back; the inverse of `EscapeHtml`. */
  function UnescapeHtml(s: string): string
    decreases |s|
  {
    if s == [] then []
    else if s[0] != '&' then [s[0]] + UnescapeHtml(s[1..])
    else if StartsWith(s, "&amp;") then "&" + UnescapeHtml(s[5..])
    else if StartsWith(s, "&lt;") then "<" + UnescapeHtml(s[4..])
    else if StartsWith(s, "&gt;") then ">" + UnescapeHtml(s[4..])
    else if StartsWith(s, "&quot;") then "\"" + UnescapeHtml(s[6..])
    else if StartsWith(s, "&#39;") then "'" + UnescapeHtml(s[5..])
    else [s[0]] + UnescapeHtml(s[1..])
  }

  lemma UnescapeAfterEntity(c: char, rest: string)
    ensures UnescapeHtml(EscapeChar(c) + rest) == [c] + UnescapeHtml(rest)
  {
    var e := EscapeChar(c);
    var s := e + rest;
    assert s[..|e|] == e && s[|e|..] == rest;
    assert |e| >= 1 && s[0] == e[0];
    if c == '&' {
      assert StartsWith(s, "&amp;");
    } else if c == '<' {
      assert !StartsWith(s, "&amp;") by { assert |s| >= 5 ==> s[..5][1] == 'l'; }
      assert StartsWith(s, "&lt;");
    } else if c == '>' {
      assert !StartsWith(s, "&amp;") by { assert |s| >= 5 ==> s[..5][1] == 'g'; }
      assert !StartsWith(s, "&lt;") by { assert s[..4][1] == 'g'; }
      assert StartsWith(s, "&gt;");
    } else if c == '"' {
      assert !StartsWith(s, "&amp;") by { assert s[..5][1] == 'q'; }
      assert !StartsWith(s, "&lt;") by { assert s[..4][1] == 'q'; }
      assert !StartsWith(s, "&gt;") by { assert s[..4][1] == 'q'; }
      assert StartsWith(s, "&quot;");
    } else if c == '\'' {
      assert !StartsWith(s, "&amp;") by { assert s[..5][1] == '#'; }
      assert !StartsWith(s, "&lt;") by { assert s[..4][1] == '#'; }
      assert !StartsWith(s, "&gt;") by { assert s[..4][1] == '#'; }
      assert !StartsWith(s, "&quot;") by { assert |s| >= 6 ==> s[..6][1] == '#'; }
      assert StartsWith(s, "&#39;");
    } else {
      assert s[0] == c && s[1..] == rest;
    }
  }

  /** Escaping loses nothing: the escaped text reads back to the original. */
  lemma {:induction false} UnescapeEscape(s: string)
    ensures UnescapeHtml(EscapeHtml(s)) == s
    decreases |s|
  {
    EscapeHtmlPerChar(s);
    UnescapeEscapeEach(s);
  }

  lemma {:induction false} UnescapeEscapeEach(s: string)
    ensures UnescapeHtml(EscapeEach(s)) == s
    decreases |s|
  {
    if s != [] {
      UnescapeAfterEntity(s[0], EscapeEach(s[1..]));
      UnescapeEscapeEach(s[1..]);
      assert [s[0]] + s[1..] == s;
    }
  }

  // ------------------------------------------------------------ getReleaseYear

  /** Where `/(19|20)\d{2}/` matches: "19" or "20" followed by two digits. */
  predicate IsYearAt(s: string, i: nat) {
    i + 4 <= |s|
    && ((s[i] == '1' && s[i + 1] == '9') || (s[i] == '2' && s[i + 1] == '0'))
    && IsDigit(s[i + 2]) && IsDigit(s[i + 3])
  }

  lemma FourDigitValue(s: string)
    requires |s| == 4 && AllDigits(s)
    ensures DigitsValue(s) == DigitValue(s[0]) * 1000 + DigitValue(s[1]) * 100 + DigitValue(s[2]) * 10 + DigitValue(s[3])
  {
    var s3, s2, s1 := s[..3], s[..2], s[..1];
    assert s3[..2] == s2 && s2[..1] == s1 && s1[..0] == [];
    assert DigitsValue(s1) == DigitValue(s[0]);
    assert DigitsValue(s2) == DigitsValue(s1) * 10 + DigitValue(s[1]);
    assert DigitsValue(s3) == DigitsValue(s2) * 10 + DigitValue(s[2]);
    assert s[..|s| - 1] == s3;
    assert DigitsValue(s) == DigitsValue(s3) * 10 + DigitValue(s[3]);
  }

  /** `label.match(/(19|20)\d{2}/)`: the number at the leftmost match, always a year from 1900 to 2099. */
  function FirstYearIn(s: string): (r: Option<nat>)
    ensures r.Some? ==> 1900 <= r.value <= 2099
    ensures r.None? <==> forall i :: 0 <= i < |s| ==> !IsYearAt(s, i)
    decreases |s|
  {
    if |s| < 4 then None
    else if IsYearAt(s, 0) then
      FourDigitValue(s[..4]);
      Some(DigitsValue(s[..4]))
    else
      var r := FirstYearIn(s[1..]);
      assert forall i :: 1 <= i < |s| ==> (IsYearAt(s, i) <==> IsYearAt(s[1..], i - 1));
      assert (forall i :: 0 <= i < |s| ==> !IsYearAt(s, i)) <==> (forall i :: 0 <= i < |s[1..]| ==> !IsYearAt(s[1..], i)) by {
        if exists i :: 0 <= i < |s[1..]| && IsYearAt(s[1..], i) {
          var i :| 0 <= i < |s[1..]| && IsYearAt(s[1..], i);
          assert IsYearAt(s, i + 1);
        }
      }
      r
  }

  /** `date.slice(0, 4)`. */
  function Prefix4(s: string): string { if |s| <= 4 then s else s[..4] }

  /**
   * `getReleaseYear` of a record: `Number` of the first four characters of
   * `date` when that is finite, else the first 19xx/20xx year in `dateLabel`.
   */
  function GetReleaseYear(date: Option<string>, dateLabel: Option<string>): Option<nat>
  {
    if date.Some? && NumberFromString(Prefix4(date.value)).Some? then NumberFromString(Prefix4(date.value))
    else if dateLabel.Some? then FirstYearIn(dateLabel.value)
    else None
  }

  /** An ISO date counts by its four-digit year. */
  lemma ReleaseYearOfIsoDate(y: string, rest: string, dateLabel: Option<string>)
    requires |y| == 4 && AllDigits(y)
    ensures GetReleaseYear(Some(y + rest), dateLabel) == Some(DigitsValue(y))
  {
    assert Prefix4(y + rest) == y;
    assert IsTrimmed(y);
  }

  /**
   * Without a usable date the year comes from the label and lies in
   * 1900..2099; a label without such a year leaves the record without one.
   * An empty date string reads as the year 0, as `Number("")` is 0.
   */
  lemma ReleaseYearFromLabel(date: Option<string>, caption: string)
    requires date.None? || NumberFromString(Prefix4(date.value)).None?
    ensures GetReleaseYear(date, Some(caption)) == FirstYearIn(caption)
    ensures GetReleaseYear(date, Some(caption)).Some? ==> 1900 <= GetReleaseYear(date, Some(caption)).value <= 2099
    ensures GetReleaseYear(Some([]), Some(caption)) == Some(0)
  {
  }

  // ------------------------------------------------------- formatDateFromIso

  const MonthNames: seq<string> := ["Jan", "Feb", "Mar", "Apr", "May", "Jun", "Jul", "Aug", "Sep", "Oct", "Nov", "Dec"]

  /**
   * `formatDateFromIso`: "YYYY-MM-DD" displayed as "DD Mon YYYY"; text that is
   * not three dash-separated parts with a year and a valid month and day is
   * returned unchanged, and a non-string gives "".
   */
  function FormatDateFromIso(iso: Option<string>): string
  {
    if iso.None? then [] else FormatDateParts(iso.value, Split(iso.value, {'-'}))
  }

  function FormatDateParts(iso: string, parts: seq<string>): string
  {
    if |parts| != 3 then iso
    else
      var month := NumberFromString(parts[1]);
      var day := NumberFromString(parts[2]);
      if parts[0] == [] || month.None? || month.value == 0 || day.None? || day.value == 0 then iso
      else if month.value > 12 then iso
      else PadStart(NatToString(day.value), 2, '0') + " " + MonthNames[month.value - 1] + " " + parts[0]
  }

  lemma SplitThree(a: string, b: string, c: string)
    requires '-' !in a && '-' !in b && '-' !in c
    ensures Split(a + "-" + b + "-" + c, {'-'}) == [a, b, c]
  {
    assert a + "-" + b + "-" + c == a + ['-'] + (b + ['-'] + c);
    SplitAfterPrefix(a, '-', b + ['-'] + c, {'-'});
    SplitAfterPrefix(b, '-', c, {'-'});
    SplitNoSeparator(c, {'-'});
  }

  lemma DigitsNumber(s: string)
    requires s != [] && AllDigits(s)
    ensures NumberFromString(s) == Some(DigitsValue(s))
    ensures '-' !in s
  {
    assert IsTrimmed(s);
  }

  /** A well-formed ISO date is shown as zero-padded day, month name and year. */
  lemma FormatIsoDate(y: string, m: string, d: string)
    requires y != [] && '-' !in y
    requires m != [] && AllDigits(m) && 1 <= DigitsValue(m) <= 12
    requires d != [] && AllDigits(d) && DigitsValue(d) >= 1
    ensures FormatDateFromIso(Some(y + "-" + m + "-" + d))
      == PadStart(NatToString(DigitsValue(d)), 2, '0') + " " + MonthNames[DigitsValue(m) - 1] + " " + y
  {
    DigitsNumber(m);
    DigitsNumber(d);
    SplitThree(y, m, d);
    FormatGoodParts(y + "-" + m + "-" + d, y, m, d, DigitsValue(m), DigitsValue(d));
  }

  lemma FormatGoodParts(iso: string, y: string, m: string, d: string, month: nat, day: nat)
    requires y != [] && 1 <= month <= 12 && day >= 1
    requires NumberFromString(m) == Some(month) && NumberFromString(d) == Some(day)
    ensures FormatDateParts(iso, [y, m, d]) == PadStart(NatToString(day), 2, '0') + " " + MonthNames[month - 1] + " " + y
  {
    var p := [y, m, d];
    assert |p| == 3 && p[0] == y && p[1] == m && p[2] == d;
    var mo, da := NumberFromString(p[1]), NumberFromString(p[2]);
    assert mo == Some(month) && da == Some(day);
    assert !(p[0] == [] || mo.None? || mo.value == 0 || da.None? || da.value == 0 || mo.value > 12);
  }

  /** Text that is not a date is shown as it is; a month outside 1..12 or a zero day leaves it unchanged too. */
  lemma FormatNonDate(iso: string)
    ensures |Split(iso, {'-'})| != 3 ==> FormatDateFromIso(Some(iso)) == iso
    ensures |Split(iso, {'-'})| == 3 && NumberFromString(Split(iso, {'-'})[1]) == Some(13) ==> FormatDateFromIso(Some(iso)) == iso
    ensures |Split(iso, {'-'})| == 3 && NumberFromString(Split(iso, {'-'})[2]) == Some(0) ==> FormatDateFromIso(Some(iso)) == iso
    ensures FormatDateFromIso(None) == []
  {
  }

  // ------------------------------------------------------------- toDateValue

  predicate IsLeap(y: int) { y % 4 == 0 && (y % 100 != 0 || y % 400 == 0) }

  function DaysInYear(y: int): int { if IsLeap(y) then 366 else 365 }

  function DaysInMonth(y: int, m: int): int
    requires 1 <= m <= 12
  {
    if m == 2 then (if IsLeap(y) then 29 else 28)
    else if m == 4 || m == 6 || m == 9 || m == 11 then 30
    else 31
  }

  /** Days in the months of year `y` before month `m`. */
  function DaysBeforeMonth(y: int, m: int): int
    requires 1 <= m <= 12
  {
    [0, 31, 59, 90, 120, 151, 181, 212, 243, 273, 304, 334][m - 1] + (if m > 2 && IsLeap(y) then 1 else 0)
  }

  /** Leap years from year 1 up to `y - 1` (proleptic Gregorian; floor division). */
  function LeapsBefore(y: int): int { (y - 1) / 4 - (y - 1) / 100 + (y - 1) / 400 }

  /** Days from 1970-01-01 to the first day of year `y`. */
  function DaysBeforeYear(y: int): int { 365 * (y - 1970) + LeapsBefore(y) - LeapsBefore(1970) }

  lemma DaysBeforeNextYear(y: int)
    ensures DaysBeforeYear(y + 1) == DaysBeforeYear(y) + DaysInYear(y)
  {
    LeapStep(y);
  }

  /** One more year adds one more leap year exactly when that year is a leap year. */
  lemma LeapStep(y: int)
    ensures LeapsBefore(y + 1) - LeapsBefore(y) == (if IsLeap(y) then 1 else 0)
  {
    assert LeapsBefore(y + 1) == y / 4 - y / 100 + y / 400;
    DivStep(y, 4);
    DivStep(y, 100);
    DivStep(y, 400);
    MultiplesNest(y);
  }

  lemma MultiplesNest(y: int)
    ensures y % 400 == 0 ==> y % 100 == 0
    ensures y % 100 == 0 ==> y % 4 == 0
  {
  }

  /** Counting the multiples of `m` below `y + 1` instead of below `y` adds one exactly at a multiple. */
  lemma DivStep(y: int, m: int)
    requires m == 4 || m == 100 || m == 400
    ensures y / m - (y - 1) / m == if y % m == 0 then 1 else 0
  {
    if m == 4 {
      assert y / 4 - (y - 1) / 4 == if y % 4 == 0 then 1 else 0;
    } else if m == 100 {
      assert y / 100 - (y - 1) / 100 == if y % 100 == 0 then 1 else 0;
    } else {
      assert y / 400 - (y - 1) / 400 == if y % 400 == 0 then 1 else 0;
    }
  }

  /** `Date.UTC(year, monthIndex, day)` in days: years 0..99 mean 1900..1999, months and days roll over. */
  function UtcDays(year: int, monthIndex: int, day: int): int
  {
    var y := if 0 <= year <= 99 then 1900 + year else year;
    var ym := y + monthIndex / 12;
    var mn := monthIndex % 12;
    DaysBeforeYear(ym) + DaysBeforeMonth(ym, mn + 1) + day - 1
  }

  const MsPerDay: int := 86400000

  /** `Date.UTC(year, monthIndex, day)` in milliseconds since 1970-01-01. */
  function DateUtc(year: int, monthIndex: int, day: int): int
  {
    UtcDays(year, monthIndex, day) * MsPerDay
  }

  /** The three numbers of a "YYYY-MM-DD" text, each at least 1. */
  datatype CivilDate = CivilDate(year: nat, month: nat, day: nat)

  /** The parts `toDateValue` reads: three dash-separated numbers, none NaN or zero. */
  function IsoDateParts(iso: Option<string>): (r: Option<CivilDate>)
    ensures r.Some? ==> r.value.year >= 1 && r.value.month >= 1 && r.value.day >= 1
  {
    if iso.None? then None else CivilOfParts(Split(iso.value, {'-'}))
  }

  function CivilOfParts(parts: seq<string>): (r: Option<CivilDate>)
    ensures r.Some? ==> r.value.year >= 1 && r.value.month >= 1 && r.value.day >= 1
  {
    if |parts| != 3 then None
    else
      var year := NumberFromString(parts[0]);
      var month := NumberFromString(parts[1]);
      var day := NumberFromString(parts[2]);
      if year.None? || year.value == 0 || month.None? || month.value == 0 || day.None? || day.value == 0 then None
      else Some(CivilDate(year.value, month.value, day.value))
  }

  /**
   * `toDateValue`: the UTC time of a "YYYY-MM-DD" text, and 0 for anything
   * else, including a part that reads as zero or NaN.
   */
  function ToDateValue(iso: Option<string>): int
  {
    var p := IsoDateParts(iso);
    if p.None? then 0 else DateUtc(p.value.year, p.value.month - 1, p.value.day)
  }

  /** A date in digits has the value `Date.UTC` gives it. */
  lemma DateValueOfIso(y: string, m: string, d: string)
    requires y != [] && AllDigits(y) && DigitsValue(y) >= 1
    requires m != [] && AllDigits(m) && DigitsValue(m) >= 1
    requires d != [] && AllDigits(d) && DigitsValue(d) >= 1
    ensures IsoDateParts(Some(y + "-" + m + "-" + d)) == Some(CivilDate(DigitsValue(y), DigitsValue(m), DigitsValue(d)))
  {
    DigitsNumber(y);
    DigitsNumber(m);
    DigitsNumber(d);
    SplitThree(y, m, d);
    CivilGoodParts(y, m, d, DigitsValue(y), DigitsValue(m), DigitsValue(d));
  }

  lemma CivilGoodParts(y: string, m: string, d: string, year: nat, month: nat, day: nat)
    requires year >= 1 && month >= 1 && day >= 1
    requires NumberFromString(y) == Some(year) && NumberFromString(m) == Some(month) && NumberFromString(d) == Some(day)
    ensures CivilOfParts([y, m, d]) == Some(CivilDate(year, month, day))
  {
    var p := [y, m, d];
    assert |p| == 3 && p[0] == y && p[1] == m && p[2] == d;
  }

  /** Everything that is not a date in digits falls back to 0. */
  lemma DateValueFallback(iso: string)
    ensures ToDateValue(None) == 0
    ensures |Split(iso, {'-'})| != 3 ==> ToDateValue(Some(iso)) == 0
    ensures var p := Split(iso, {'-'}); |p| == 3 && (ReadsAsZero(p[0]) || ReadsAsZero(p[1]) || ReadsAsZero(p[2])) ==> ToDateValue(Some(iso)) == 0
    ensures IsoDateParts(Some(iso)).None? ==> ToDateValue(Some(iso)) == 0
  {
  }

  /** `!Number(part)`: the part reads as NaN or as zero. */
  predicate ReadsAsZero(part: string) {
    NumberFromString(part).None? || NumberFromString(part).value == 0
  }

  predicate ValidDate(y: int, m: int, d: int) {
    1 <= m <= 12 && 1 <= d <= DaysInMonth(y, m)
  }

  /** Days from 1970-01-01 to a valid calendar date. */
  function EpochDay(y: int, m: int, d: int): int
    requires 1 <= m <= 12
  {
    DaysBeforeYear(y) + DaysBeforeMonth(y, m) + d - 1
  }

  lemma DayWithinYear(y: int, m: int, d: int)
    requires ValidDate(y, m, d)
    ensures DaysBeforeYear(y) <= EpochDay(y, m, d) < DaysBeforeYear(y + 1)
  {
    DaysBeforeNextYear(y);
  }

  lemma {:induction false} YearsInOrder(y1: int, y2: int)
    requires y1 < y2
    ensures DaysBeforeYear(y1 + 1) <= DaysBeforeYear(y2)
    decreases y2 - y1
  {
    if y1 + 1 < y2 {
      YearsInOrder(y1 + 1, y2);
      DaysBeforeNextYear(y1 + 1);
    }
  }

  lemma MonthsInOrder(y: int, m1: int, m2: int)
    requires 1 <= m1 < m2 <= 12
    ensures DaysBeforeMonth(y, m1) + DaysInMonth(y, m1) <= DaysBeforeMonth(y, m2)
  {
  }

  predicate EarlierDate(y1: int, m1: int, d1: int, y2: int, m2: int, d2: int) {
    y1 < y2 || (y1 == y2 && (m1 < m2 || (m1 == m2 && d1 < d2)))
  }

  /**
   * For years from 100 on, a later calendar date always has a larger
   * `Date.UTC` value, so sorting by it sorts by date.
   */
  lemma DateUtcOrder(y1: int, m1: int, d1: int, y2: int, m2: int, d2: int)
    requires y1 >= 100 && y2 >= 100
    requires ValidDate(y1, m1, d1) && ValidDate(y2, m2, d2)
    requires EarlierDate(y1, m1, d1, y2, m2, d2)
    ensures DateUtc(y1, m1 - 1, d1) < DateUtc(y2, m2 - 1, d2)
  {
    UtcDaysOfDate(y1, m1, d1);
    UtcDaysOfDate(y2, m2, d2);
    EpochDayOrder(y1, m1, d1, y2, m2, d2);
    var a, b := UtcDays(y1, m1 - 1, d1), UtcDays(y2, m2 - 1, d2);
    assert a * MsPerDay < b * MsPerDay;
  }

  /** From year 100 on, `Date.UTC` of a valid date counts the days from 1970-01-01. */
  lemma UtcDaysOfDate(y: int, m: int, d: int)
    requires y >= 100 && ValidDate(y, m, d)
    ensures UtcDays(y, m - 1, d) == EpochDay(y, m, d)
  {
    assert (m - 1) / 12 == 0 && (m - 1) % 12 == m - 1;
  }

  /** A later valid date is a later day. */
  lemma EpochDayOrder(y1: int, m1: int, d1: int, y2: int, m2: int, d2: int)
    requires ValidDate(y1, m1, d1) && ValidDate(y2, m2, d2)
    requires EarlierDate(y1, m1, d1, y2, m2, d2)
    ensures EpochDay(y1, m1, d1) < EpochDay(y2, m2, d2)
  {
    if y1 < y2 {
      DayWithinYear(y1, m1, d1);
      DayWithinYear(y2, m2, d2);
      YearsInOrder(y1, y2);
    } else if m1 < m2 {
      MonthsInOrder(y1, m1, m2);
    }
  }
}
