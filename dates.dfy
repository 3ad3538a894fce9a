/** Calendar dates as Python's `datetime.date` holds them, and their three renderings in the
    scrapers: `f'{y:04}{m:02}{d:02}'` (the basic format of section 4.1.2.2 of ISO 8601:2004),
    `strftime('%Y-%m-%d')` (the extended format of the same section), and the race page's
    `Y年M月D日`, which `strptime(text, '%Y年%m月%d日')` reads back. */
module Dates {
  import opened Wrappers
  import opened Text
  import opened Regex

  datatype Date = Date(year: int, month: int, day: int)

  predicate IsLeapYear(y: int)
  {
    y % 4 == 0 && (y % 100 != 0 || y % 400 == 0)
  }

  function DaysInMonth(y: int, m: int): int
    requires 1 <= m <= 12
  {
    if m == 2 then (if IsLeapYear(y) then 29 else 28)
    else if m == 4 || m == 6 || m == 9 || m == 11 then 30
    else 31
  }

  /** The dates a `datetime.date` can hold (years 1 to 9999 of the proleptic Gregorian calendar). */
  predicate ValidDate(d: Date)
  {
    1 <= d.year <= 9999 && 1 <= d.month <= 12 && 1 <= d.day <= DaysInMonth(d.year, d.month)
  }

  /** `f'{date.year:04}{date.month:02}{date.day:02}'`: the ISO 8601 basic format YYYYMMDD. */
  function BasicFormat(d: Date): string
    requires ValidDate(d)
  {
    PadZero(d.year, 4) + PadZero(d.month, 2) + PadZero(d.day, 2)
  }

  /** `strftime(date, '%Y-%m-%d')`: the ISO 8601 extended format YYYY-MM-DD. */
  function ExtendedFormat(d: Date): string
    requires ValidDate(d)
  {
    PadZero(d.year, 4) + "-" + PadZero(d.month, 2) + "-" + PadZero(d.day, 2)
  }

  /** How a race page writes a date: a four-digit year, then month and day without padding. */
  function JapaneseFormat(d: Date): string
    requires ValidDate(d)
  {
    PadZero(d.year, 4) + "年" + Decimal(d.month) + "月" + Decimal(d.day) + "日"
  }

  /** The directive `%m` or `%d` followed by the literal `stop`: one or two digits (as many as
      there are, `strptime` being greedy) and then `stop`; yields the digits and what follows. */
  function DigitField(s: string, stop: char): (r: Option<(string, string)>)
    ensures r.Some? ==> 1 <= |r.value.0| <= 2 && AllDigits(r.value.0) && s == r.value.0 + [stop] + r.value.1
  {
    var a := ClassRun(Digit, s, 0);
    if 1 <= a <= 2 && a < |s| && s[a] == stop then
      assert s == s[..a] + [stop] + s[a + 1..];
      Some((s[..a], s[a + 1..]))
    else None
  }

  /** `datetime.strptime(w, '%Y年%m月%d日')` on the strings a race page can give: four digits, 年,
      one or two digits, 月, one or two digits, 日 and nothing more, naming a date that exists;
      every other such string raises ValueError. */
  function Strptime(w: string): (r: Result<Date>)
    ensures r.Success? ==> ValidDate(r.value)
    ensures r.Failure? ==> r.error == ValueError
  {
    if |w| >= 5 && AllDigits(w[..4]) && w[4] == '年' then
      match DigitField(w[5..], '月')
      case None => Failure(ValueError)
      case Some((m, r1)) =>
        match DigitField(r1, '日')
        case None => Failure(ValueError)
        case Some((dd, rest)) =>
          var dt := Date(DecimalValue(w[..4]), DecimalValue(m), DecimalValue(dd));
          if rest == [] && ValidDate(dt) then Success(dt) else Failure(ValueError)
    else Failure(ValueError)
  }

  lemma DigitFieldOf(f: string, stop: char, rest: string)
    requires 1 <= |f| <= 2 && AllDigits(f) && !IsDigit(stop)
    ensures DigitField(f + [stop] + rest, stop) == Some((f, rest))
  {
    var s := f + [stop] + rest;
    ClassRunExact(Digit, s, 0, |f|);
    assert s[..|f|] == f && s[|f| + 1..] == rest;
  }

  lemma Pow10Small()
    ensures Pow10(1) == 10 && Pow10(2) == 100 && Pow10(4) == 10000
  {
    assert Pow10(1) == 10 * Pow10(0);
    assert Pow10(2) == 10 * Pow10(1);
    assert Pow10(3) == 10 * Pow10(2);
    assert Pow10(4) == 10 * Pow10(3);
  }

  /** The basic format is eight digits whose slices [0:4], [4:6] and [6:8] read back as the
      year, the month and the day. */
  lemma BasicFormatRoundTrip(d: Date)
    requires ValidDate(d)
    ensures var b := BasicFormat(d);
      |b| == 8 && AllDigits(b)
      && DecimalValue(b[..4]) == d.year && DecimalValue(b[4..6]) == d.month && DecimalValue(b[6..]) == d.day
  {
    Pow10Small();
    PadZeroSpec(d.year, 4);
    PadZeroSpec(d.month, 2);
    PadZeroSpec(d.day, 2);
    var b := BasicFormat(d);
    var y, m, dd := PadZero(d.year, 4), PadZero(d.month, 2), PadZero(d.day, 2);
    assert b[..4] == y && b[4..6] == m && b[6..] == dd;
    DecimalValueConcat(y, m);
    DecimalValueConcat(y + m, dd);
  }

  /** The extended format is the basic format with dashes after the year and the month. */
  lemma ExtendedIsBasicWithDashes(d: Date)
    requires ValidDate(d)
    ensures var b := BasicFormat(d);
      |b| == 8 && ExtendedFormat(d) == b[..4] + "-" + b[4..6] + "-" + b[6..]
  {
    Pow10Small();
    PadZeroSpec(d.year, 4);
    PadZeroSpec(d.month, 2);
    PadZeroSpec(d.day, 2);
    var b := BasicFormat(d);
    assert b[..4] == PadZero(d.year, 4) && b[4..6] == PadZero(d.month, 2) && b[6..] == PadZero(d.day, 2);
  }

  /** `strptime` on digit fields of the accepted widths, joined by 年, 月 and 日, yields the
      date they spell out exactly when that date exists. */
  lemma StrptimeFields(y: string, m: string, dd: string)
    requires |y| == 4 && AllDigits(y)
    requires 1 <= |m| <= 2 && AllDigits(m) && 1 <= |dd| <= 2 && AllDigits(dd)
    ensures var dt := Date(DecimalValue(y), DecimalValue(m), DecimalValue(dd));
      Strptime(y + "年" + m + "月" + dd + "日") == if ValidDate(dt) then Success(dt) else Failure(ValueError)
  {
    var w := y + "年" + m + "月" + dd + "日";
    var r1 := m + "月" + (dd + "日");
    assert w == y + "年" + r1;
    assert w[..4] == y && w[4] == '年' && w[5..] == r1;
    DigitFieldOf(m, '月', dd + "日");
    DigitFieldOf(dd, '日', "");
    assert dd + "日" == dd + ['日'] + "";
  }

  /** `strptime` reads back the date a race page writes. */
  lemma StrptimeJapanese(d: Date)
    requires ValidDate(d)
    ensures Strptime(JapaneseFormat(d)) == Success(d)
  {
    Pow10Small();
    PadZeroSpec(d.year, 4);
    DecimalRoundTrip(d.month);
    DecimalRoundTrip(d.day);
    DecimalWidth(d.month, 2);
    DecimalWidth(d.day, 2);
    StrptimeFields(PadZero(d.year, 4), Decimal(d.month), Decimal(d.day));
  }
}
