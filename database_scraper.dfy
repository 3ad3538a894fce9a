/** netkeiba's race database page (`DatabaseScraper`): the free-text fields of the race header,
    the payout tables and the id columns of the result table. A fetched page is given as the
    texts and cells the scraper reads from it. */
module DatabaseScraper {
  import opened Wrappers
  import opened Text
  import opened Regex
  import opened Dates
  import opened RaceId
  import opened PayTable

  /** A dictionary value that is either a `str` or an `int`. */
  datatype Value = Str(s: string) | Int(i: int)

  /** The dictionary `__parse1` returns, one field per key: レース種別 (kind), 周回方向
      (direction), コース長 (length), 天気 (weather), コース状態 (going), 出走時間 (startTime). */
  datatype CourseInfo = CourseInfo(
    kind: string, direction: string, length: int, weather: string, going: string, startTime: string)

  /** The dictionary `__parse2` returns: 日付 (date; `None` when the key is not set), 年, 月 and
      日 (year, month, day), レースランク (rank), 地方 (local), 外国 (foreign), 条件 (condition). */
  datatype ClassInfo = ClassInfo(
    date: Option<string>, year: Value, month: Value, day: Value,
    rank: string, local: string, foreign: string, condition: string)

  /** `\(G\d\)` */
  const GradePattern: Pattern := [[Lit('('), Lit('G'), Once(Digit), Lit(')')]]
  /** `[ダ芝障]` */
  const SurfacePattern: Pattern := [[Once(OneOf("ダ芝障"))]]
  /** `[左右]` */
  const DirectionPattern: Pattern := [[Once(OneOf("左右"))]]
  /** `\d{3,4}m` */
  const LengthPattern: Pattern := [[Atom(Digit, 3, UpTo(4)), Lit('m')]]
  /** `[晴曇雨小雪]{1,2}` */
  const WeatherPattern: Pattern := [[Atom(OneOf("晴曇雨小雪"), 1, UpTo(2))]]
  /** `[良稍重不]{1,2}` */
  const GoingPattern: Pattern := [[Atom(OneOf("良稍重不"), 1, UpTo(2))]]
  /** `\d{2}:\d{2}` */
  const StartTimePattern: Pattern := [[Atom(Digit, 2, UpTo(2)), Lit(':'), Atom(Digit, 2, UpTo(2))]]
  /** `\d{4}年\d{1,2}月\d{1,2}日` */
  const DatePattern: Pattern :=
    [[Atom(Digit, 4, UpTo(4)), Lit('年'), Atom(Digit, 1, UpTo(2)), Lit('月'), Atom(Digit, 1, UpTo(2)), Lit('日')]]
  /** `[新馬未勝利出走オープン]{2,4}|\d+万|\d勝クラス` */
  const RankPattern: Pattern := [
    [Atom(OneOf("新馬未勝利出走オープン"), 2, UpTo(4))],
    [Atom(Digit, 1, Unbounded), Lit('万')],
    [Once(Digit), Lit('勝'), Lit('ク'), Lit('ラ'), Lit('ス')]]
  /** `[特指]{1,2}` */
  const LocalPattern: Pattern := [[Atom(OneOf("特指"), 1, UpTo(2))]]
  /** `[国際混]{1,2}` */
  const ForeignPattern: Pattern := [[Atom(OneOf("国際混"), 1, UpTo(2))]]
  /** `[ハンデ馬齢別定量]{2,3}` */
  const ConditionPattern: Pattern := [[Atom(OneOf("ハンデ馬齢別定量"), 2, UpTo(3))]]
  /** `\d+` */
  const DigitsPattern: Pattern := [[Atom(Digit, 1, Unbounded)]]

  lemma PatternsSolid()
    ensures Solid(GradePattern) && Solid(SurfacePattern) && Solid(DirectionPattern)
    ensures Solid(LengthPattern) && Solid(WeatherPattern) && Solid(GoingPattern)
    ensures Solid(StartTimePattern) && Solid(DatePattern) && Solid(RankPattern)
    ensures Solid(LocalPattern) && Solid(ForeignPattern) && Solid(ConditionPattern)
    ensures Solid(DigitsPattern)
  {
    assert MinLength(RankPattern[0]) >= 1 by { assert RankPattern[0][1..] == []; }
    assert MinLength(RankPattern[1]) >= 1;
    assert MinLength(RankPattern[2]) >= 1;
  }

  /** Python's `s[:-1]`. */
  function DropLast(s: string): string
  {
    if s == [] then [] else s[..|s| - 1]
  }

  // ---------------------------------------------------------------- __parse_racename

  /** `__parse_racename`, whose dictionary has the one key G123: `'G1'`, `'G2'` or `'G3'` when
      the first `(G\d)` holds '1', '2' or '3' (checked in that order), otherwise `'-'`. */
  function Grade(raceName: string): string
  {
    PatternsSolid();
    var gn := DefaultFind(GradePattern, raceName, "");
    if Contains(gn, "1") then "G1"
    else if Contains(gn, "2") then "G2"
    else if Contains(gn, "3") then "G3"
    else "-"
  }

  /** A grade mark `(G` digit `)` starts at `i`. */
  predicate GradeAt(s: string, i: nat)
  {
    i + 4 <= |s| && s[i] == '(' && s[i + 1] == 'G' && IsDigit(s[i + 2]) && s[i + 3] == ')'
  }

  lemma GradeMatchAt(s: string, i: nat)
    requires i <= |s|
    ensures MatchAt(GradePattern, s, i) == if GradeAt(s, i) then Some(i + 4) else None
  {
    var b := GradePattern[0];
    SingleBranch(b, s, i);
    MatchOnceStep(b, s, i);
    if i < |s| && s[i] == '(' {
      assert b[1..] == [Lit('G'), Once(Digit), Lit(')')];
      MatchOnceStep(b[1..], s, i + 1);
      if i + 1 < |s| && s[i + 1] == 'G' {
        assert b[1..][1..] == [Once(Digit), Lit(')')];
        MatchOnceStep(b[1..][1..], s, i + 2);
        if i + 2 < |s| && IsDigit(s[i + 2]) {
          assert b[1..][1..][1..] == [Lit(')')];
          MatchOnceStep(b[1..][1..][1..], s, i + 3);
        }
      }
    }
  }

  lemma NoGradeBefore(s: string, k: nat)
    requires k <= |s| && forall t | 0 <= t < k :: !GradeAt(s, t)
    ensures NoMatchIn(GradePattern, s, 0, k)
  {
    forall t: nat | t < k ensures MatchAt(GradePattern, s, t).None? {
      GradeMatchAt(s, t);
    }
  }

  lemma GradeOfMark(gn: string)
    requires |gn| == 4 && gn[0] == '(' && gn[1] == 'G' && gn[3] == ')'
    ensures Contains(gn, "1") <==> gn[2] == '1'
    ensures Contains(gn, "2") <==> gn[2] == '2'
    ensures Contains(gn, "3") <==> gn[2] == '3'
  {
    assert gn == ['(', 'G', gn[2], ')'];
    ContainsChar(gn, '1');
    ContainsChar(gn, '2');
    ContainsChar(gn, '3');
  }

  /** The grade is read from the digit of the first grade mark. */
  lemma GradeOfFirstMark(s: string, i: nat)
    requires GradeAt(s, i) && forall t | 0 <= t < i :: !GradeAt(s, t)
    ensures Grade(s) ==
      if s[i + 2] == '1' then "G1" else if s[i + 2] == '2' then "G2" else if s[i + 2] == '3' then "G3" else "-"
  {
    PatternsSolid();
    NoGradeBefore(s, i);
    GradeMatchAt(s, i);
    DefaultFindAt(GradePattern, s, "", i);
    var gn := s[i..i + 4];
    assert DefaultFind(GradePattern, s, "") == gn;
    GradeOfMark(gn);
  }

  /** Without a grade mark the grade is '-'. */
  lemma GradeWithoutMark(s: string)
    requires forall t | 0 <= t < |s| :: !GradeAt(s, t)
    ensures Grade(s) == "-"
  {
    PatternsSolid();
    NoGradeBefore(s, |s|);
    assert DefaultFind(GradePattern, s, "") == "";
    ContainsChar("", '1');
    ContainsChar("", '2');
    ContainsChar("", '3');
  }

  // ---------------------------------------------------------------- __parse1

  /** `int(__defaultfind('\d{3,4}m', text, default='-1 ')[:-1])` */
  function CourseLength(text: string): Result<int>
  {
    PatternsSolid();
    ParseInt(DropLast(DefaultFind(LengthPattern, text, "-1 ")))
  }

  /** `__parse1`: race kind, direction, course length, weather, going and start time. */
  function Parse1(text: string): (r: Result<CourseInfo>)
  {
    PatternsSolid();
    var length :- CourseLength(text);
    Success(CourseInfo(
      DefaultFind(SurfacePattern, text, ""),
      DefaultFind(DirectionPattern, text, "無"),
      length,
      DefaultFind(WeatherPattern, text, ""),
      DefaultFind(GoingPattern, text, ""),
      DefaultFind(StartTimePattern, text, "")))
  }

  /** Where a course length (three or four digits and 'm') ends when it starts at `i`: the digit
      run taken up to four digits must be followed by 'm'. */
  function LengthEnd(s: string, i: nat): (r: Option<nat>)
    requires i <= |s|
    ensures r.Some? ==> i + 4 <= r.value <= i + 5 && r.value <= |s|
  {
    var run := ClassRun(Digit, s, i);
    var k := if run < 4 then run else 4;
    if 3 <= k && i + k < |s| && s[i + k] == 'm' then Some(i + k + 1) else None
  }

  /** `\d{3,4}m` matches where `LengthEnd` says: backtracking from four digits to three cannot
      help, since the fourth character is then a digit and not 'm'. */
  lemma LengthMatchAt(s: string, i: nat)
    requires i <= |s|
    ensures MatchAt(LengthPattern, s, i) == LengthEnd(s, i)
  {
    var b := LengthPattern[0];
    var tail := [Lit('m')];
    assert b[1..] == tail;
    SingleBranch(b, s, i);
    var run := ClassRun(Digit, s, i);
    var k0 := Capped(b[0], run);
    if 3 <= k0 {
      MatchOnceStep(tail, s, i + k0);
      assert tail[1..] == [];
      if k0 == 4 && MatchBranch(tail, s, i + 4).None? {
        assert IsDigit(s[i + 3]);
        MatchOnceStep(tail, s, i + 3);
        assert TryCounts(b, s, i, 3) == None;
      }
    }
  }

  lemma LengthDigits(s: string, i: nat)
    requires i <= |s| && LengthEnd(s, i).Some?
    ensures var j := LengthEnd(s, i).value;
      3 <= j - 1 - i <= 4 && AllDigits(s[i..j - 1]) && DropLast(s[i..j]) == s[i..j - 1]
  {
    var j := LengthEnd(s, i).value;
    var run := ClassRun(Digit, s, i);
    assert forall t | i <= t < j - 1 :: IsDigit(s[t]);
    var f := s[i..j - 1];
    assert forall t | 0 <= t < |f| :: f[t] == s[i + t];
  }

  /** When a course length is given, it is the value of its three or four digits. */
  lemma CourseLengthOfMatch(s: string, i: nat)
    requires i < |s| && LengthEnd(s, i).Some? && forall t | 0 <= t < i :: LengthEnd(s, t).None?
    ensures var j := LengthEnd(s, i).value;
      3 <= j - 1 - i <= 4 && AllDigits(s[i..j - 1]) && CourseLength(s) == Success(DecimalValue(s[i..j - 1]))
  {
    PatternsSolid();
    forall t: nat | t < i ensures MatchAt(LengthPattern, s, t).None? {
      LengthMatchAt(s, t);
    }
    LengthMatchAt(s, i);
    DefaultFindAt(LengthPattern, s, "-1 ", i);
    var j := LengthEnd(s, i).value;
    assert DefaultFind(LengthPattern, s, "-1 ") == s[i..j];
    LengthDigits(s, i);
  }

  /** Without a course length the field is -1. */
  lemma CourseLengthAbsent(s: string)
    requires forall t | 0 <= t < |s| :: LengthEnd(s, t).None?
    ensures CourseLength(s) == Success(-1)
  {
    PatternsSolid();
    forall t: nat | t < |s| ensures MatchAt(LengthPattern, s, t).None? {
      LengthMatchAt(s, t);
    }
    assert DropLast("-1 ") == "-1";
    assert DecimalValue("1") == 1 by { assert "1"[..0] == []; }
  }

  /** `__parse1` never raises: the text handed to `int` is always a number. */
  lemma Parse1Succeeds(s: string)
    ensures CourseLength(s).Success? && Parse1(s).Success?
  {
    PatternsSolid();
    var all := FindAll(LengthPattern, s);
    FindAllEmpty(LengthPattern, s);
    if all == [] {
      forall t | 0 <= t < |s| ensures LengthEnd(s, t).None? {
        LengthMatchAt(s, t);
      }
      CourseLengthAbsent(s);
    } else {
      FindAllSound(LengthPattern, s, 0);
      var i, j :| 0 <= i < j <= |s| && MatchAt(LengthPattern, s, i) == Some(j) && all[0] == s[i..j];
      LengthMatchAt(s, i);
      assert DefaultFind(LengthPattern, s, "-1 ") == s[i..j];
      LengthDigits(s, i);
    }
  }

  lemma Parse1Values(s: string)
    ensures Parse1(s).Success?
    ensures var r := Parse1(s).value;
      r.kind == DefaultFind(SurfacePattern, s, "") && r.direction == DefaultFind(DirectionPattern, s, "無")
      && r.weather == DefaultFind(WeatherPattern, s, "") && r.going == DefaultFind(GoingPattern, s, "")
  {
    Parse1Succeeds(s);
  }

  /** The text of the first character of class `k`, or `default` when there is none. */
  function FirstCharOr(k: CharClass, s: string, default: string): string
  {
    match FirstInClass(k, s, 0)
    case None => default
    case Some(p) => [s[p]]
  }

  /** The run of class `a.cls` (cut at `a.max` characters) starting at its first character, or "". */
  function FirstRun(a: Atom, s: string): string
  {
    match FirstInClass(a.cls, s, 0)
    case None => ""
    case Some(p) => s[p..p + Capped(a, ClassRun(a.cls, s, p))]
  }

  lemma KindField(s: string)
    ensures DefaultFind(SurfacePattern, s, "") == FirstCharOr(OneOf("ダ芝障"), s, "")
  {
    ClassFind(OneOf("ダ芝障"), s, "");
  }

  lemma DirectionField(s: string)
    ensures DefaultFind(DirectionPattern, s, "無") == FirstCharOr(OneOf("左右"), s, "無")
  {
    ClassFind(OneOf("左右"), s, "無");
  }

  lemma WeatherField(s: string)
    ensures DefaultFind(WeatherPattern, s, "") == FirstRun(WeatherPattern[0][0], s)
  {
    RunFind(WeatherPattern[0][0], s, "");
  }

  lemma GoingField(s: string)
    ensures DefaultFind(GoingPattern, s, "") == FirstRun(GoingPattern[0][0], s)
  {
    RunFind(GoingPattern[0][0], s, "");
  }

  /** The one-character fields are the first character of their class, or the default; the
      weather and the going are the run (up to two characters) starting at the first character
      of their class, or "". */
  lemma Parse1Fields(s: string)
    ensures Parse1(s).Success?
    ensures Parse1(s).value.kind == FirstCharOr(OneOf("ダ芝障"), s, "")
    ensures Parse1(s).value.direction == FirstCharOr(OneOf("左右"), s, "無")
    ensures Parse1(s).value.weather == FirstRun(WeatherPattern[0][0], s)
    ensures Parse1(s).value.going == FirstRun(GoingPattern[0][0], s)
  {
    Parse1Values(s);
    KindField(s);
    DirectionField(s);
    WeatherField(s);
    GoingField(s);
  }

  // ---------------------------------------------------------------- __parse2

  /** `__parse2`: the date (when a `Y年M月D日` is found, `strptime` must accept it, or ValueError
      is raised), then the race class, the local and foreign marks and the weight condition. */
  function Parse2(text: string): (r: Result<ClassInfo>)
    ensures r.Failure? ==> r.error == ValueError
  {
    PatternsSolid();
    var rank := DefaultFind(RankPattern, text, "");
    var local := DefaultFind(LocalPattern, text, "無");
    var foreign := DefaultFind(ForeignPattern, text, "無");
    var condition := DefaultFind(ConditionPattern, text, "無");
    match FirstMatch(DatePattern, text)
    case None => Success(ClassInfo(None, Str(""), Str(""), Str(""), rank, local, foreign, condition))
    case Some(cont) =>
      var date :- Strptime(cont);
      Success(ClassInfo(Some(ExtendedFormat(date)), Int(date.year), Int(date.month), Int(date.day),
        rank, local, foreign, condition))
  }

  /** `s` starts with four digits, 年, `lm` digits, 月, `ld` digits and 日. */
  predicate DateLayout(s: string, lm: nat, ld: nat)
  {
    var pm, pd := 5, 6 + lm;
    pd + ld < |s|
    && (forall t | 0 <= t < 4 :: IsDigit(s[t])) && s[4] == '年'
    && (forall t | pm <= t < pm + lm :: IsDigit(s[t])) && s[pm + lm] == '月'
    && (forall t | pd <= t < pd + ld :: IsDigit(s[t])) && s[pd + ld] == '日'
  }

  lemma DateLayoutOfFields(y: string, m: string, dd: string, rest: string)
    requires |y| == 4 && AllDigits(y) && AllDigits(m) && AllDigits(dd)
    ensures var s := y + "年" + m + "月" + dd + "日" + rest;
      DateLayout(s, |m|, |dd|) && s[..|m| + |dd| + 7] == y + "年" + m + "月" + dd + "日"
  {
    var s := y + "年" + m + "月" + dd + "日" + rest;
    var pm, pd := 5, 6 + |m|;
    assert s[..pd + |dd| + 1] == y + "年" + m + "月" + dd + "日";
    assert forall t | 0 <= t < 4 :: s[t] == y[t];
    assert forall t | pm <= t < pm + |m| :: s[t] == m[t - pm];
    assert forall t | pd <= t < pd + |dd| :: s[t] == dd[t - pd];
  }

  /** On such a layout with one- or two-digit month and day the date pattern matches through 日. */
  lemma DateMatchOfLayout(s: string, lm: nat, ld: nat)
    requires DateLayout(s, lm, ld) && 1 <= lm <= 2 && 1 <= ld <= 2
    ensures MatchAt(DatePattern, s, 0) == Some(lm + ld + 7)
  {
    var e := lm + ld + 7;
    var a4, a12 := Atom(Digit, 4, UpTo(4)), Atom(Digit, 1, UpTo(2));
    assert MatchBranch([], s, e) == Some(e);
    FieldThenLiteral(a12, '日', [], s, 6 + lm, ld);
    assert [a12, Lit('日')] + [] == [a12, Lit('日')];
    FieldThenLiteral(a12, '月', [a12, Lit('日')], s, 5, lm);
    assert [a12, Lit('月')] + [a12, Lit('日')] == [a12, Lit('月'), a12, Lit('日')];
    FieldThenLiteral(a4, '年', [a12, Lit('月'), a12, Lit('日')], s, 0, 4);
    assert DatePattern[0] == [a4, Lit('年')] + [a12, Lit('月'), a12, Lit('日')];
    SingleBranch(DatePattern[0], s, 0);
  }

  /** The date pattern matches a whole `Y年M月D日` with a four-digit year and one- or
      two-digit month and day, whatever follows it. */
  lemma DateMatchOfFields(y: string, m: string, dd: string, rest: string)
    requires |y| == 4 && AllDigits(y) && 1 <= |m| <= 2 && AllDigits(m) && 1 <= |dd| <= 2 && AllDigits(dd)
    ensures var s := y + "年" + m + "月" + dd + "日" + rest;
      var e := |y| + |m| + |dd| + 3;
      e <= |s| && s[..e] == y + "年" + m + "月" + dd + "日" && MatchAt(DatePattern, s, 0) == Some(e)
  {
    DateLayoutOfFields(y, m, dd, rest);
    DateMatchOfLayout(y + "年" + m + "月" + dd + "日" + rest, |m|, |dd|);
  }

  /** A header that starts with a date as the page writes it yields that date: 日付 in the
      extended format, and 年, 月 and 日 as integers. */
  lemma Parse2OfDate(d: Date, rest: string)
    requires ValidDate(d)
    ensures var r := Parse2(JapaneseFormat(d) + rest);
      r.Success? && r.value.date == Some(ExtendedFormat(d))
      && r.value.year == Int(d.year) && r.value.month == Int(d.month) && r.value.day == Int(d.day)
  {
    PatternsSolid();
    assert Pow10(1) == 10 && Pow10(2) == 100 && Pow10(4) == 10000 by { Pow10Small(); }
    PadZeroSpec(d.year, 4);
    DecimalWidth(d.month, 2);
    DecimalWidth(d.day, 2);
    var y, m, dd := PadZero(d.year, 4), Decimal(d.month), Decimal(d.day);
    DateMatchOfFields(y, m, dd, rest);
    var s := JapaneseFormat(d) + rest;
    assert s == y + "年" + m + "月" + dd + "日" + rest;
    FirstMatchAt(DatePattern, s, 0);
    assert FirstMatch(DatePattern, s) == Some(JapaneseFormat(d));
    StrptimeJapanese(d);
  }

  /** Without a date the 年, 月 and 日 fields stay "" and there is no 日付 field. */
  lemma Parse2WithoutDate(text: string)
    requires NoMatchIn(DatePattern, text, 0, |text|)
    ensures var r := Parse2(text);
      r.Success? && r.value.date.None? && r.value.year == Str("") && r.value.month == Str("") && r.value.day == Str("")
  {
    PatternsSolid();
  }

  // ---------------------------------------------------------------- the page

  /** An `a` tag and its `href` attribute, when it has one. */
  datatype Anchor = Anchor(href: Option<string>)

  /** A `td` cell of the result table: its first `a` tag, when it has one. */
  datatype Td = Td(anchor: Option<Anchor>)

  /** A `p` of the `data_intro` block: the text of its first `span` (when it has one) and its own text. */
  datatype Para = Para(span: Option<string>, text: string)

  /** What the scraper reads from a fetched database page; `None` is an element `find` does not
      find. `raceName` is the `h1` of `dl.racedata`, `intro` the paragraphs of `div.data_intro`,
      `payTables` the rows of the `pay_table_01` tables as cleaned cell texts, and `resultRows`
      the `tr` rows of `race_table_01`, each given by its `td` cells. */
  datatype Page = Page(
    raceName: Option<string>, intro: Option<seq<Para>>,
    payTables: seq<seq<seq<string>>>, resultRows: Option<seq<seq<Td>>>)

  // ---------------------------------------------------------------- get_race_info

  /** The dictionary `get_race_info` builds: race_id, then the keys of `__parse_racename`,
      `__parse_race_id`, `__parse1` and `__parse2` (no two of which share a key). */
  datatype RaceInfo = RaceInfo(raceId: int, grade: string, key: RaceKey, course: CourseInfo, cls: ClassInfo)

  /** `get_race_info` on a loaded page, in the source's order: `int(race_id)`, the race name and
      the intro block (AttributeError when missing), the race id's fields, then `data_intro[0]`'s
      span for `__parse1` and `data_intro[1]` for `__parse2` (IndexError when missing). */
  function RaceInfoOf(raceId: string, page: Page): (r: Result<RaceInfo>)
    ensures ParseInt(raceId).Failure? ==> r == Failure(ValueError)
    ensures ParseInt(raceId).Success? && (page.raceName.None? || page.intro.None?) ==> r == Failure(AttributeError)
    ensures r.Success? ==> Success(r.value.key) == DecodeRaceId(raceId) && Success(r.value.raceId) == ParseInt(raceId)
  {
    var id :- ParseInt(raceId);
    if page.raceName.None? || page.intro.None? then Failure(AttributeError)
    else
      var grade := Grade(page.raceName.value);
      var key :- DecodeRaceId(raceId);
      var intro := page.intro.value;
      if |intro| == 0 then Failure(IndexError)
      else if intro[0].span.None? then Failure(AttributeError)
      else
        var course :- Parse1(intro[0].span.value);
        if |intro| < 2 then Failure(IndexError)
        else
          var cls :- Parse2(intro[1].text);
          Success(RaceInfo(id, grade, key, course, cls))
  }

  lemma AllDigitsConcat(a: string, b: string)
    requires AllDigits(a) && AllDigits(b)
    ensures AllDigits(a + b)
  {
    assert forall t | 0 <= t < |a + b| :: (a + b)[t] == if t < |a| then a[t] else b[t - |a|];
  }

  /** On a page with the race name and two intro paragraphs (the first with a span), the race
      info of an id that decodes is complete exactly when `__parse2` accepts the second paragraph. */
  lemma RaceInfoOfPage(raceId: string, page: Page)
    requires ParseInt(raceId).Success? && DecodeRaceId(raceId).Success?
    requires page.raceName.Some? && page.intro.Some? && |page.intro.value| >= 2 && page.intro.value[0].span.Some?
    ensures var r := RaceInfoOf(raceId, page);
      var p1 := Parse1(page.intro.value[0].span.value);
      var p2 := Parse2(page.intro.value[1].text);
      p1.Success?
      && r == (if p2.Success? then Success(RaceInfo(ParseInt(raceId).value, Grade(page.raceName.value),
        DecodeRaceId(raceId).value, p1.value, p2.value)) else Failure(p2.error))
  {
    Parse1Succeeds(page.intro.value[0].span.value);
  }

  /** For a race id built from a known racecourse and two-digit fields, on a page that has the
      race name and two intro paragraphs (the first with a span), the race info is complete
      exactly when `__parse2` accepts the second paragraph, and carries the id's number, the
      racecourse, the fields' values and the grade, course and class of the page. */
  lemma RaceInfoOfResultId(name: string, count: string, raceDate: string, raceNum: string, page: Page)
    requires name in RacecourseCodes
    requires |count| == 2 && AllDigits(count) && |raceDate| == 2 && AllDigits(raceDate)
    requires |raceNum| == 2 && AllDigits(raceNum)
    requires page.raceName.Some? && page.intro.Some? && |page.intro.value| >= 2 && page.intro.value[0].span.Some?
    ensures var id := ResultRaceId(RacecourseCodes[name], count, raceDate, raceNum);
      var r := RaceInfoOf(id, page);
      (r.Success? <==> Parse2(page.intro.value[1].text).Success?)
      && (r.Success? ==>
        AllDigits(id) && r.value.raceId == DecimalValue(id)
        && r.value.grade == Grade(page.raceName.value)
        && r.value.key == RaceKey(name, DecimalValue(count), DecimalValue(raceDate), DecimalValue(raceNum))
        && Parse1(page.intro.value[0].span.value) == Success(r.value.course)
        && Parse2(page.intro.value[1].text) == Success(r.value.cls))
  {
    var code := RacecourseCodes[name];
    var id := ResultRaceId(code, count, raceDate, raceNum);
    CodeEntry(name);
    assert AllDigits("2024");
    AllDigitsConcat("2024", code);
    AllDigitsConcat("2024" + code, count);
    AllDigitsConcat("2024" + code + count, raceDate);
    AllDigitsConcat("2024" + code + count + raceDate, raceNum);
    DecodeResultRaceId(name, count, raceDate, raceNum);
    assert ParseInt(id) == Success(DecimalValue(id));
    RaceInfoOfPage(id, page);
  }

  /** The errors `get_race_info` can raise. */
  lemma RaceInfoErrors(raceId: string, page: Page)
    ensures var r := RaceInfoOf(raceId, page);
      r.Failure? ==> r.error in {ValueError, KeyError, IndexError, AttributeError}
  {
  }

  // ---------------------------------------------------------------- __get_id_list_from_col

  /** `tr_list[1:]`: the rows after the header. */
  function DataRows(rows: seq<seq<Td>>): seq<seq<Td>>
  {
    if rows == [] then [] else rows[1..]
  }

  /** One row of `__get_id_list_from_col`: `tr.find_all('td')[col]` (IndexError past the last
      cell), '' when the cell has no link, `atag["href"]` (KeyError without one), and the first
      `\d+` match of the href (IndexError when there is none). */
  function IdOfRow(row: seq<Td>, col: nat): Result<string>
  {
    if col >= |row| then Failure(IndexError)
    else
      match row[col].anchor
      case None => Success("")
      case Some(a) =>
        match a.href
        case None => Failure(KeyError)
        case Some(h) =>
          PatternsSolid();
          match FirstMatch(DigitsPattern, h)
          case None => Failure(IndexError)
          case Some(m) => Success(m)
  }

  /** The ids of all rows, in order, the first failing row deciding the error. */
  function IdsOfRows(rows: seq<seq<Td>>, col: nat): Result<seq<string>>
  {
    if rows == [] then Success([])
    else
      var front :- IdsOfRows(rows[..|rows| - 1], col);
      var last :- IdOfRow(rows[|rows| - 1], col);
      Success(front + [last])
  }

  /** `__get_id_list_from_col` on the scraper's page: AttributeError when no page is loaded or
      the page has no result table. */
  function IdListOf(soup: Option<Page>, col: nat): Result<seq<string>>
  {
    match soup
    case None => Failure(AttributeError)
    case Some(page) =>
      match page.resultRows
      case None => Failure(AttributeError)
      case Some(rows) => IdsOfRows(DataRows(rows), col)
  }

  /** The first run of digits of a text. */
  function FirstDigits(h: string): string
  {
    FirstRun(Atom(Digit, 1, Unbounded), h)
  }

  /** A linked cell yields the first (maximal) run of digits of its href, which is non-empty;
      an href without a digit raises IndexError. */
  lemma IdOfHref(h: string)
    ensures var m := FirstMatch(DigitsPattern, h);
      (m.None? <==> FirstInClass(Digit, h, 0).None?)
      && (m.Some? ==> m.value == FirstDigits(h) && |m.value| >= 1 && AllDigits(m.value))
  {
    var a := Atom(Digit, 1, Unbounded);
    assert DigitsPattern == [[a]];
    RunFirstMatch(a, h);
    match FirstInClass(Digit, h, 0)
    case None =>
    case Some(p) =>
      var run := ClassRun(Digit, h, p);
      var f := h[p..p + run];
      assert forall t | 0 <= t < |f| :: f[t] == h[p + t];
  }

  /** The one- and the no-link cases of a row. */
  lemma IdOfRowSpec(row: seq<Td>, col: nat)
    ensures IdOfRow(row, col).Success? <==>
      col < |row| && (row[col].anchor.Some? ==>
        row[col].anchor.value.href.Some? && FirstInClass(Digit, row[col].anchor.value.href.value, 0).Some?)
    ensures IdOfRow(row, col).Success? ==>
      (IdOfRow(row, col).value == "" <==> row[col].anchor.None?)
      && (row[col].anchor.Some? ==> IdOfRow(row, col).value == FirstDigits(row[col].anchor.value.href.value))
  {
    if col < |row| && row[col].anchor.Some? && row[col].anchor.value.href.Some? {
      IdOfHref(row[col].anchor.value.href.value);
    }
  }

  /** The id list has one entry per row, entry `k` being row `k`'s id, and exists exactly when
      every row's id does. */
  lemma {:induction false} IdsOfRowsSpec(rows: seq<seq<Td>>, col: nat)
    ensures IdsOfRows(rows, col).Success? <==> forall k | 0 <= k < |rows| :: IdOfRow(rows[k], col).Success?
    ensures IdsOfRows(rows, col).Success? ==>
      var ids := IdsOfRows(rows, col).value;
      |ids| == |rows| && forall k | 0 <= k < |rows| :: ids[k] == IdOfRow(rows[k], col).value
  {
    if rows != [] {
      var front := rows[..|rows| - 1];
      IdsOfRowsSpec(front, col);
      assert forall k | 0 <= k < |front| :: front[k] == rows[k];
      var fr := IdsOfRows(front, col);
      var last := IdOfRow(rows[|rows| - 1], col);
      assert IdsOfRows(rows, col) == if fr.Failure? then Failure(fr.error)
        else if last.Failure? then Failure(last.error) else Success(fr.value + [last.value]);
    }
  }

  /** Once row `k` fails after the rows before it succeeded, the whole list fails the same way. */
  lemma {:induction false} IdsOfRowsStop(rows: seq<seq<Td>>, col: nat, k: nat)
    requires k < |rows| && IdsOfRows(rows[..k], col).Success? && IdOfRow(rows[k], col).Failure?
    ensures IdsOfRows(rows, col) == Failure(IdOfRow(rows[k], col).error)
    decreases |rows|
  {
    if k < |rows| - 1 {
      var front := rows[..|rows| - 1];
      assert front[..k] == rows[..k] && front[k] == rows[k];
      IdsOfRowsStop(front, col, k);
    } else {
      assert rows[..|rows| - 1] == rows[..k];
    }
  }

  // ---------------------------------------------------------------- the scraper

  /** `DatabaseScraper`: the page and race id of the last `get_soup`. Fetching is I/O, so the
      fetched page is a parameter of the operations that fetch. */
  class DatabaseScraper {
    var soup: Option<Page>
    var raceId: Option<string>

    /** A page is only ever loaded together with its race id. */
    predicate Valid()
      reads this
    {
      soup.Some? ==> raceId.Some?
    }

    constructor()
      ensures Valid() && soup == None && raceId == None
    {
      soup := None;
      raceId := None;
    }

    /** `get_soup`: keeps the page fetched for `id` and the id. */
    method GetSoup(id: string, fetched: Page) returns (page: Page)
      modifies this
      ensures Valid() && soup == Some(fetched) && raceId == Some(id) && page == fetched
    {
      soup := Some(fetched);
      raceId := Some(id);
      page := fetched;
    }

    /** The common head of the getters: `get_soup(race_id)` when an id is given, then
        `assert self.soup is not None`. */
    method Load(idArg: Option<string>, fetched: Page)
      requires Valid() && (idArg.Some? || soup.Some?)
      modifies this
      ensures Valid() && soup.Some?
      ensures idArg.Some? ==> soup == Some(fetched) && raceId == idArg
      ensures idArg.None? ==> soup == old(soup) && raceId == old(raceId)
    {
      if idArg.Some? {
        var _ := GetSoup(idArg.value, fetched);
      }
    }

    /** `get_race_info`. */
    method GetRaceInfo(idArg: Option<string>, fetched: Page) returns (r: Result<RaceInfo>)
      requires Valid() && (idArg.Some? || soup.Some?)
      modifies this
      ensures Valid() && soup.Some?
      ensures idArg.Some? ==> soup == Some(fetched) && raceId == idArg
      ensures idArg.None? ==> soup == old(soup) && raceId == old(raceId)
      ensures r == RaceInfoOf(raceId.value, soup.value)
    {
      Load(idArg, fetched);
      r := RaceInfoOf(raceId.value, soup.value);
    }

    /** `get_pay_df`: the rows of the first two payout tables reshaped into records. */
    method GetPayDf(idArg: Option<string>, fetched: Page) returns (r: Result<seq<PayRecord>>)
      requires Valid() && (idArg.Some? || soup.Some?)
      modifies this
      ensures Valid() && soup.Some?
      ensures idArg.Some? ==> soup == Some(fetched) && raceId == idArg
      ensures idArg.None? ==> soup == old(soup) && raceId == old(raceId)
      ensures r == PayTableOf(raceId.value, soup.value.payTables)
    {
      Load(idArg, fetched);
      var tables := soup.value.payTables;
      if |tables| < 2 {
        return Failure(IndexError);
      }
      var rows := tables[0] + tables[1];
      r := ReshapeRows(raceId.value, rows, Width(rows));
    }

    /** `__get_id_list_from_col`: one id per data row of the result table. */
    method IdListFromCol(col: nat) returns (r: Result<seq<string>>)
      ensures r == IdListOf(soup, col)
    {
      if soup.None? || soup.value.resultRows.None? {
        return Failure(AttributeError);
      }
      var rows := DataRows(soup.value.resultRows.value);
      var ids: seq<string> := [];
      for k := 0 to |rows|
        invariant IdsOfRows(rows[..k], col) == Success(ids)
      {
        var row := rows[k];
        assert rows[..k + 1][..k] == rows[..k] && rows[..k + 1][k] == row;
        if col >= |row| {
          IdsOfRowsStop(rows, col, k);
          return Failure(IndexError);
        }
        var atag := row[col].anchor;
        if atag.None? {
          ids := ids + [""];
        } else {
          if atag.value.href.None? {
            IdsOfRowsStop(rows, col, k);
            return Failure(KeyError);
          }
          PatternsSolid();
          var found := FirstMatch(DigitsPattern, atag.value.href.value);
          if found.None? {
            IdsOfRowsStop(rows, col, k);
            return Failure(IndexError);
          }
          ids := ids + [found.value];
        }
      }
      assert rows[..|rows|] == rows;
      r := Success(ids);
    }

    /** `__get_owner_id_list`: the ids of column 19. */
    method OwnerIdList() returns (r: Result<seq<string>>)
      ensures r == IdListOf(soup, 19)
    {
      r := IdListFromCol(19);
    }
  }
}
