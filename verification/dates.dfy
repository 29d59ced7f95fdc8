/** `format_date`: an ISO date or date-time string becomes a US-style `MM/DD/YYYY`
    string, and anything that does not parse becomes the empty string.

    The parse follows what `datetime.strptime(text, '%Y-%m-%d')` accepts: the format
    is turned into the regular expression `(\d\d\d\d)-(1[0-2]|0[1-9]|[1-9])-(3[01]|[12]\d|0[1-9]|[1-9]| [1-9])`,
    matched at the start of the text, and the whole text must be consumed; the three
    numbers must then form a date `datetime` can hold (years 1 to 9999, a day that
    exists in its month of the Gregorian calendar). */
module Dates {
  import opened Options
  import opened Records
  import Texts

  datatype Date = Date(year: int, month: int, day: int)

  predicate IsLeapYear(year: int) {
    year % 4 == 0 && (year % 100 != 0 || year % 400 == 0)
  }

  function DaysInMonth(year: int, month: int): (n: int)
    requires 1 <= month <= 12
    ensures 28 <= n <= 31
    ensures month == 2 ==> (n == 29 <==> IsLeapYear(year))
  {
    if month == 2 then (if IsLeapYear(year) then 29 else 28)
    else if month == 4 || month == 6 || month == 9 || month == 11 then 30
    else 31
  }

  /** The dates a Python `datetime` can hold. */
  predicate IsCalendarDate(d: Date) {
    1 <= d.year <= 9999 && 1 <= d.month <= 12 && 1 <= d.day <= DaysInMonth(d.year, d.month)
  }

  type CalendarDate = d: Date | IsCalendarDate(d) witness Date(1, 1, 1)

  /** The numbers the three fields of `%Y-%m-%d` can spell, whether or not they form a
      real date: four digits of year, month 1 to 12, day 1 to 31. */
  predicate InFieldRange(d: Date) {
    0 <= d.year <= 9999 && 1 <= d.month <= 12 && 1 <= d.day <= 31
  }

  // ---------------------------------------------------------------- digits

  predicate IsDigit(c: char) {
    '0' <= c <= '9'
  }

  function DigitValue(c: char): (n: int)
    requires IsDigit(c)
    ensures 0 <= n <= 9
  {
    c as int - '0' as int
  }

  function DigitChar(n: int): (c: char)
    requires 0 <= n <= 9
    ensures IsDigit(c) && DigitValue(c) == n
  {
    (n + '0' as int) as char
  }

  /** `n` as exactly two decimal digits, with a leading zero below 10. */
  function Pad2(n: int): (s: string)
    requires 0 <= n < 100
    ensures |s| == 2 && IsDigit(s[0]) && IsDigit(s[1])
    ensures 10 * DigitValue(s[0]) + DigitValue(s[1]) == n
  {
    [DigitChar(n / 10), DigitChar(n % 10)]
  }

  /** `n` as exactly four decimal digits, with leading zeros. */
  function Pad4(n: int): (s: string)
    requires 0 <= n < 10000
    ensures |s| == 4 && IsDigit(s[0]) && IsDigit(s[1]) && IsDigit(s[2]) && IsDigit(s[3])
    ensures Value4(s) == n
  {
    var s := Pad2(n / 100) + Pad2(n % 100);
    assert s[..2] == Pad2(n / 100) && s[2..] == Pad2(n % 100);
    s
  }

  function Value2(s: string): int
    requires |s| >= 2 && IsDigit(s[0]) && IsDigit(s[1])
  {
    10 * DigitValue(s[0]) + DigitValue(s[1])
  }

  function Value4(s: string): int
    requires |s| >= 4 && IsDigit(s[0]) && IsDigit(s[1]) && IsDigit(s[2]) && IsDigit(s[3])
  {
    100 * Value2(s) + Value2(s[2..])
  }

  lemma Pad2OfValue(s: string)
    requires |s| == 2 && IsDigit(s[0]) && IsDigit(s[1])
    ensures Pad2(Value2(s)) == s
  {
    var a, b := DigitValue(s[0]), DigitValue(s[1]);
    assert (10 * a + b) / 10 == a && (10 * a + b) % 10 == b;
  }

  lemma Pad4OfValue(s: string)
    requires |s| == 4 && IsDigit(s[0]) && IsDigit(s[1]) && IsDigit(s[2]) && IsDigit(s[3])
    ensures Pad4(Value4(s)) == s
  {
    var hi, lo := Value2(s), Value2(s[2..]);
    assert (100 * hi + lo) / 100 == hi && (100 * hi + lo) % 100 == lo;
    Pad2OfValue(s[..2]);
    Pad2OfValue(s[2..]);
    assert s == s[..2] + s[2..];
  }

  // ---------------------------------------------------------------- the accepted spellings

  /** The texts `%m` accepts for month `m`: two digits, or one digit below 10. */
  function MonthTexts(m: int): set<string>
    requires 1 <= m <= 12
  {
    if m < 10 then {Pad2(m), [DigitChar(m)]} else {Pad2(m)}
  }

  /** The texts `%d` accepts for day `d`: two digits, or below 10 one digit alone or
      after a single space. */
  function DayTexts(d: int): set<string>
    requires 1 <= d <= 31
  {
    if d < 10 then {Pad2(d), [DigitChar(d)], [' ', DigitChar(d)]} else {Pad2(d)}
  }

  /** Every text that `strptime(_, '%Y-%m-%d')` reads as the fields of `d`. */
  function Spellings(d: Date): set<string>
    requires InFieldRange(d)
  {
    set mt, dt | mt in MonthTexts(d.month) && dt in DayTexts(d.day) :: Pad4(d.year) + "-" + mt + "-" + dt
  }

  lemma SpellingOf(d: Date, mt: string, dt: string)
    requires InFieldRange(d) && mt in MonthTexts(d.month) && dt in DayTexts(d.day)
    ensures Pad4(d.year) + "-" + mt + "-" + dt in Spellings(d)
  {
  }

  // ---------------------------------------------------------------- the parser

  /** The `%m` field followed by the literal `-`, with the regular expression's
      alternatives `1[0-2]`, `0[1-9]`, `[1-9]` tried in that order. Yields the month and
      the text after the `-`. */
  function MatchMonth(t: string): (r: Option<(int, string)>)
    ensures r.Some? ==> 1 <= r.value.0 <= 12
    ensures r.Some? ==> var rest := r.value.1;
      |t| - 3 <= |rest| <= |t| - 2 && t[|t| - |rest| - 1] == '-' && t[|t| - |rest|..] == rest
  {
    if |t| >= 3 && t[0] == '1' && '0' <= t[1] <= '2' && t[2] == '-' then Some((10 + DigitValue(t[1]), t[3..]))
    else if |t| >= 3 && t[0] == '0' && '1' <= t[1] <= '9' && t[2] == '-' then Some((DigitValue(t[1]), t[3..]))
    else if |t| >= 2 && '1' <= t[0] <= '9' && t[1] == '-' then Some((DigitValue(t[0]), t[2..]))
    else None
  }

  /** The `%d` field, with the alternatives `3[01]`, `[12]\d`, `0[1-9]`, `[1-9]`, ` [1-9]`
      tried in that order; the first alternative that matches is kept, and it must end
      the text or `strptime` reports unconverted data. */
  function MatchDay(t: string): (r: Option<int>)
    ensures r.Some? ==> 1 <= r.value <= 31 && 1 <= |t| <= 2
    ensures r.Some? ==> IsDigit(t[|t| - 1]) && DigitValue(t[|t| - 1]) == r.value % 10
  {
    if |t| >= 2 && t[0] == '3' && (t[1] == '0' || t[1] == '1') then
      (if |t| == 2 then Some(30 + DigitValue(t[1])) else None)
    else if |t| >= 2 && (t[0] == '1' || t[0] == '2') && IsDigit(t[1]) then
      (if |t| == 2 then Some(10 * DigitValue(t[0]) + DigitValue(t[1])) else None)
    else if |t| >= 2 && t[0] == '0' && '1' <= t[1] <= '9' then
      (if |t| == 2 then Some(DigitValue(t[1])) else None)
    else if |t| >= 1 && '1' <= t[0] <= '9' then
      (if |t| == 1 then Some(DigitValue(t[0])) else None)
    else if |t| >= 2 && t[0] == ' ' && '1' <= t[1] <= '9' then
      (if |t| == 2 then Some(DigitValue(t[1])) else None)
    else None
  }

  /** The regular expression of `%Y-%m-%d` matched against the whole of `p`: the year,
      month and day it reads, before any check that they form a real date. */
  function ParseFields(p: string): (r: Option<Date>)
    ensures r.Some? ==> InFieldRange(r.value) && 8 <= |p| <= 10 && p[4] == '-'
  {
    if |p| < 5 || !(IsDigit(p[0]) && IsDigit(p[1]) && IsDigit(p[2]) && IsDigit(p[3])) || p[4] != '-' then None
    else
      match MatchMonth(p[5..])
      case None => None
      case Some((month, rest)) =>
        match MatchDay(rest)
        case None => None
        case Some(day) => Some(Date(Value4(p), month, day))
  }

  /** `datetime.strptime(p, '%Y-%m-%d')`, with `None` for the `ValueError` it raises:
      the fields must match and then form a date `datetime` can hold. */
  function ParseIso(p: string): Option<CalendarDate>
  {
    match ParseFields(p)
    case None => None
    case Some(d) => if IsCalendarDate(d) then Some(d) else None
  }

  lemma MatchMonthSound(t: string)
    requires MatchMonth(t).Some?
    ensures var (m, rest) := MatchMonth(t).value;
      1 <= m <= 12 && exists mt :: mt in MonthTexts(m) && t == mt + "-" + rest
  {
    var (m, rest) := MatchMonth(t).value;
    if |t| >= 3 && t[0] == '1' && '0' <= t[1] <= '2' && t[2] == '-' {
      Pad2OfValue(t[..2]);
      assert t == t[..2] + "-" + rest;
    } else if |t| >= 3 && t[0] == '0' && '1' <= t[1] <= '9' && t[2] == '-' {
      Pad2OfValue(t[..2]);
      assert t == t[..2] + "-" + rest;
    } else {
      assert t == [t[0]] + "-" + rest;
    }
  }

  lemma MatchMonthComplete(m: int, mt: string, rest: string)
    requires 1 <= m <= 12 && mt in MonthTexts(m)
    ensures MatchMonth(mt + "-" + rest) == Some((m, rest))
  {
    var t := mt + "-" + rest;
    if mt == Pad2(m) {
      assert t[3..] == rest;
    } else {
      assert t[2..] == rest;
    }
  }

  lemma MatchDaySound(t: string)
    requires MatchDay(t).Some?
    ensures 1 <= MatchDay(t).value <= 31 && t in DayTexts(MatchDay(t).value)
  {
    var d := MatchDay(t).value;
    if |t| == 2 && IsDigit(t[0]) && IsDigit(t[1]) {
      Pad2OfValue(t);
    } else if |t| == 1 {
      assert t == [DigitChar(d)];
    } else {
      assert t == [' ', DigitChar(d)];
    }
  }

  lemma MatchDayComplete(d: int, dt: string)
    requires 1 <= d <= 31 && dt in DayTexts(d)
    ensures MatchDay(dt) == Some(d)
  {
  }

  /** Every text the fields match spells the fields it yields. */
  lemma ParseFieldsSound(p: string)
    requires ParseFields(p).Some?
    ensures InFieldRange(ParseFields(p).value) && p in Spellings(ParseFields(p).value)
  {
    var d := ParseFields(p).value;
    var (m, rest) := MatchMonth(p[5..]).value;
    MatchMonthSound(p[5..]);
    MatchDaySound(rest);
    var mt :| mt in MonthTexts(m) && p[5..] == mt + "-" + rest;
    var y := p[..4];
    assert Value4(y) == d.year by {
      assert y[2..] == p[2..4];
      assert Value2(y[2..]) == Value2(p[2..]);
    }
    Pad4OfValue(y);
    assert p == y + "-" + p[5..];
    assert d.month == m && d.day == MatchDay(rest).value;
    assert p == Pad4(d.year) + "-" + mt + "-" + rest;
    assert InFieldRange(d);
    SpellingOf(d, mt, rest);
  }

  /** Every spelling of a field triple is matched, and yields that triple. */
  lemma ParseFieldsComplete(d: Date, p: string)
    requires InFieldRange(d) && p in Spellings(d)
    ensures ParseFields(p) == Some(d)
  {
    var mt, dt :| mt in MonthTexts(d.month) && dt in DayTexts(d.day) && p == Pad4(d.year) + "-" + mt + "-" + dt;
    assert p[..4] == Pad4(d.year);
    assert p[5..] == mt + "-" + dt;
    MatchMonthComplete(d.month, mt, dt);
    MatchDayComplete(d.day, dt);
  }

  /** Every text the parser accepts spells the date it returns, and that date exists. */
  lemma ParseIsoSound(p: string)
    requires ParseIso(p).Some?
    ensures InFieldRange(ParseIso(p).value) && p in Spellings(ParseIso(p).value)
  {
    ParseFieldsSound(p);
  }

  /** A text that spells a date is accepted exactly when the date exists, and then
      yields that date. */
  lemma ParseIsoComplete(d: Date, p: string)
    requires InFieldRange(d) && p in Spellings(d)
    ensures ParseIso(p) == (if IsCalendarDate(d) then Some(d) else None)
  {
    ParseFieldsComplete(d, p);
  }

  /** No text spells two different dates. */
  lemma SpellingsDisjoint(a: Date, b: Date, p: string)
    requires InFieldRange(a) && InFieldRange(b) && p in Spellings(a) && p in Spellings(b)
    ensures a == b
  {
    ParseFieldsComplete(a, p);
    ParseFieldsComplete(b, p);
  }

  // ---------------------------------------------------------------- output

  /** The shape of every non-empty result: `MM/DD/YYYY` with ten characters. */
  predicate IsUsShape(r: string) {
    |r| == 10 && r[2] == '/' && r[5] == '/'
    && IsDigit(r[0]) && IsDigit(r[1]) && IsDigit(r[3]) && IsDigit(r[4])
    && IsDigit(r[6]) && IsDigit(r[7]) && IsDigit(r[8]) && IsDigit(r[9])
  }

  /** Reads a `MM/DD/YYYY` text back into its three numbers. */
  function ReadUs(r: string): Date
    requires IsUsShape(r)
  {
    Date(Value4(r[6..10]), Value2(r[0..2]), Value2(r[3..5]))
  }

  /** `strftime('%m/%d/%Y')`: two-digit month, two-digit day, four-digit year. The
      text has the `MM/DD/YYYY` shape and reads back as the same year, month and day. */
  function UsText(d: CalendarDate): (r: string)
    ensures IsUsShape(r) && ReadUs(r) == d
  {
    var m, dd, y := Pad2(d.month), Pad2(d.day), Pad4(d.year);
    var r := m + "/" + dd + "/" + y;
    assert r[0..2] == m && r[3..5] == dd && r[6..10] == y;
    assert r[6] == y[0] && r[7] == y[1] && r[8] == y[2] && r[9] == y[3];
    r
  }

  // ---------------------------------------------------------------- format_date

  /** `date_str.split('T')[0]`: the text before the first `T`, or all of it. */
  function DatePart(s: string): (r: string)
    ensures r <= s && 'T' !in r
    ensures |r| == |s| || s[|r|] == 'T'
  {
    Texts.UpTo(s, 'T')
  }

  /** `format_date`: `""` for a falsy value, for a value without `split` and for any
      text whose part before `T` does not parse; otherwise the date in US form. */
  function FormatDate(v: FieldValue): (r: string)
    ensures r == "" || IsUsShape(r)
    ensures r != "" ==> v.Text? && v.text != ""
  {
    match v
    case Null => ""
    case NonText => ""
    case Text(s) =>
      if s == "" then ""
      else
        match ParseIso(DatePart(s))
        case None => ""
        case Some(d) => UsText(d)
  }

  /** A falsy value, and a value that is not text, give `""`. */
  lemma FormatDateFalsy(v: FieldValue)
    requires v == Null || v == Text("") || v == NonText
    ensures FormatDate(v) == ""
  {
  }

  /** `format_date` looks only at the text before the first `T`. */
  lemma FormatDateUsesOnlyDatePart(s1: string, s2: string)
    requires DatePart(s1) == DatePart(s2)
    ensures FormatDate(Text(s1)) == FormatDate(Text(s2))
  {
    assert ParseIso("") == None;
  }

  lemma SpellingHasNoT(d: Date, p: string)
    requires InFieldRange(d) && p in Spellings(d)
    ensures 'T' !in p
  {
    var mt, dt :| mt in MonthTexts(d.month) && dt in DayTexts(d.day) && p == Pad4(d.year) + "-" + mt + "-" + dt;
    assert forall i :: 0 <= i < |p| ==> p[i] == '-' || p[i] == ' ' || IsDigit(p[i]);
  }

  /** A text whose date part spells a date: `format_date` gives the date in US form
      when it exists, and `""` when it does not (month 13, 30 February, year 0). */
  lemma FormatDateOfSpelling(d: Date, p: string, tail: string)
    requires InFieldRange(d) && p in Spellings(d)
    requires tail == "" || tail[0] == 'T'
    ensures IsCalendarDate(d) ==> FormatDate(Text(p + tail)) == UsText(d)
    ensures !IsCalendarDate(d) ==> FormatDate(Text(p + tail)) == ""
  {
    SpellingHasNoT(d, p);
    Texts.UpToOf(p, 'T', tail);
    ParseIsoComplete(d, p);
  }

  /** A non-empty result always renders a real date that the input's date part spells. */
  lemma FormatDateSound(s: string)
    requires FormatDate(Text(s)) != ""
    ensures var d := ParseIso(DatePart(s)).value;
      InFieldRange(d) && DatePart(s) in Spellings(d) && FormatDate(Text(s)) == UsText(d)
  {
    ParseIsoSound(DatePart(s));
  }

  // ---------------------------------------------------------------- worked examples

  /** A text that spells a real date, possibly followed by a time, formats as that date. */
  lemma SpelledExample(d: CalendarDate, mt: string, dt: string, tail: string, input: string, expected: string)
    requires mt in MonthTexts(d.month) && dt in DayTexts(d.day)
    requires tail == "" || tail[0] == 'T'
    requires input == Pad4(d.year) + "-" + mt + "-" + dt + tail
    requires UsText(d) == expected
    ensures FormatDate(Text(input)) == expected
  {
    var p := Pad4(d.year) + "-" + mt + "-" + dt;
    SpellingOf(d, mt, dt);
    assert input == p + tail;
    FormatDateOfSpelling(d, p, tail);
  }

  /** A text that spells fields that are no date formats as `""`. */
  lemma MisspelledExample(d: Date, mt: string, dt: string, input: string)
    requires InFieldRange(d) && !IsCalendarDate(d)
    requires mt in MonthTexts(d.month) && dt in DayTexts(d.day)
    requires input == Pad4(d.year) + "-" + mt + "-" + dt
    ensures FormatDate(Text(input)) == ""
  {
    SpellingOf(d, mt, dt);
    assert input + "" == input;
    FormatDateOfSpelling(d, input, "");
  }

  lemma January15Facts()
    ensures "2024-01-15" == Pad4(2024) + "-" + Pad2(1) + "-" + Pad2(15)
    ensures UsText(Date(2024, 1, 15)) == "01/15/2024"
  {
    assert Pad4(2024) == "2024" && Pad2(1) == "01" && Pad2(15) == "15";
  }

  lemma DateTimeFacts(input: string)
    requires input == "2024-01-15T00:00:00Z"
    ensures input == Pad4(2024) + "-" + Pad2(1) + "-" + Pad2(15) + "T00:00:00Z"
    ensures Pad2(1) in MonthTexts(1) && Pad2(15) in DayTexts(15)
    ensures UsText(Date(2024, 1, 15)) == "01/15/2024"
  {
    January15Facts();
    assert input == "2024-01-15" + "T00:00:00Z";
  }

  /** A date-time keeps only its date: `2024-01-15T00:00:00Z` is `01/15/2024`. */
  lemma DateTimeExample(input: string)
    requires input == "2024-01-15T00:00:00Z"
    ensures FormatDate(Text(input)) == "01/15/2024"
  {
    DateTimeFacts(input);
    SpelledExample(Date(2024, 1, 15), Pad2(1), Pad2(15), "T00:00:00Z", input, "01/15/2024");
  }

  lemma LeapDayFacts(input: string)
    requires input == "2024-02-29"
    ensures input == Pad4(2024) + "-" + Pad2(2) + "-" + Pad2(29) + ""
    ensures Pad2(2) in MonthTexts(2) && Pad2(29) in DayTexts(29)
    ensures UsText(Date(2024, 2, 29)) == "02/29/2024"
  {
    assert Pad4(2024) == "2024" && Pad2(2) == "02" && Pad2(29) == "29";
  }

  /** 29 February exists in 2024. */
  lemma LeapDayExample(input: string)
    requires input == "2024-02-29"
    ensures FormatDate(Text(input)) == "02/29/2024"
  {
    LeapDayFacts(input);
    SpelledExample(Date(2024, 2, 29), Pad2(2), Pad2(29), "", input, "02/29/2024");
  }

  lemma NotLeapDayFacts(input: string)
    requires input == "2023-02-29"
    ensures input == Pad4(2023) + "-" + Pad2(2) + "-" + Pad2(29)
    ensures Pad2(2) in MonthTexts(2) && Pad2(29) in DayTexts(29)
    ensures !IsCalendarDate(Date(2023, 2, 29))
  {
    assert Pad4(2023) == "2023" && Pad2(2) == "02" && Pad2(29) == "29";
  }

  /** 29 February does not exist in 2023. */
  lemma NotLeapDayExample(input: string)
    requires input == "2023-02-29"
    ensures FormatDate(Text(input)) == ""
  {
    NotLeapDayFacts(input);
    MisspelledExample(Date(2023, 2, 29), Pad2(2), Pad2(29), input);
  }

  lemma OneDigitFacts(input: string)
    requires input == "2024-1-5"
    ensures input == Pad4(2024) + "-" + [DigitChar(1)] + "-" + [DigitChar(5)] + ""
    ensures [DigitChar(1)] in MonthTexts(1) && [DigitChar(5)] in DayTexts(5)
    ensures UsText(Date(2024, 1, 5)) == "01/05/2024"
  {
    assert Pad4(2024) == "2024" && [DigitChar(1)] == "1" && [DigitChar(5)] == "5";
    assert Pad2(1) == "01" && Pad2(5) == "05";
  }

  /** One-digit month and day are accepted and padded on output. */
  lemma OneDigitExample(input: string)
    requires input == "2024-1-5"
    ensures FormatDate(Text(input)) == "01/05/2024"
  {
    OneDigitFacts(input);
    SpelledExample(Date(2024, 1, 5), [DigitChar(1)], [DigitChar(5)], "", input, "01/05/2024");
  }

  /** A text whose date part the fields do not match formats as `""`. */
  lemma UnmatchedExample(input: string)
    requires input != "" && ParseFields(DatePart(input)) == None
    ensures FormatDate(Text(input)) == ""
  {
  }

  lemma BadMonthFacts(p: string)
    requires p == "2024-13-01"
    ensures p != "" && ParseFields(DatePart(p)) == None
  {
    Texts.UpToOf(p, 'T', "");
    assert p + "" == p;
    assert p[5..] == "13-01";
    assert MatchMonth("13-01") == None;
  }

  /** A thirteenth month is refused. */
  lemma BadMonthExample(p: string)
    requires p == "2024-13-01"
    ensures FormatDate(Text(p)) == ""
  {
    BadMonthFacts(p);
    UnmatchedExample(p);
  }
}
