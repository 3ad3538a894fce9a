/** netkeiba race identifiers. A race id is twelve characters: the year (four digits), the
    racecourse code, the meeting number, the day within the meeting and the race number (two
    digits each). The REST handler builds one from a racecourse name and three two-digit fields;
    the scrapers take one apart again by fixed slices and the racecourse table. */
module RaceId {
  import opened Wrappers
  import opened Text

  /** `RACECOURSE_DICT`: racecourse number to racecourse name. */
  const RacecourseDict: map<int, string> := map[
    1 := "札幌", 2 := "函館", 3 := "福島", 4 := "新潟", 5 := "東京",
    6 := "中山", 7 := "中京", 8 := "京都", 9 := "阪神", 10 := "小倉"]

  /** `racecourse_codes`: racecourse name to the two-digit code used in race ids. */
  const RacecourseCodes: map<string, string> := map[
    "札幌" := "01", "函館" := "02", "福島" := "03", "新潟" := "04",
    "東京" := "05", "中山" := "06", "中京" := "07", "京都" := "08",
    "阪神" := "09", "小倉" := "10"]

  /** The fields a race id encodes after the year. */
  datatype RaceKey = RaceKey(course: string, meeting: int, day: int, race: int)

  /** `str(n)` for any integer. */
  function IntToString(n: int): (s: string)
    ensures |s| >= 1
    ensures ParseInt(s) == Success(n)
    ensures n >= 0 ==> AllDigits(s) && (s[0] == '0' ==> n == 0)
    ensures n < 0 ==> |s| >= 2 && s[0] == '-' && AllDigits(s[1..]) && s[1] != '0'
  {
    DecimalRoundTrip(if n < 0 then -n else n);
    if n < 0 then
      var d := Decimal(-n);
      assert ("-" + d)[1..] == d;
      "-" + d
    else Decimal(n)
  }

  /** The race id of the result page: `f"2024{code}{count}{race_date}{race_num}"`. */
  function ResultRaceId(code: string, count: string, raceDate: string, raceNum: string): string
  {
    "2024" + code + count + raceDate + raceNum
  }

  /** `__parse_race_id`: the racecourse from `RACECOURSE_DICT[int(id[4:6])]`, then the meeting,
      the day and the race from `int(id[6:8])`, `int(id[8:10])` and `int(id[10:12])`, in that
      order; a slice that is not an integer raises ValueError, an unknown racecourse KeyError. */
  function DecodeRaceId(id: string): (r: Result<RaceKey>)
    ensures ParseInt(Slice(id, 4, 6)).Failure? ==> r == Failure(ValueError)
    ensures ParseInt(Slice(id, 4, 6)).Success? && ParseInt(Slice(id, 4, 6)).value !in RacecourseDict ==>
      r == Failure(KeyError)
    ensures ParseInt(Slice(id, 4, 6)).Success? && ParseInt(Slice(id, 4, 6)).value in RacecourseDict && r.Failure? ==>
      r.error == ValueError
    ensures r.Failure? ==> r.error == ValueError || r.error == KeyError
    ensures r.Success? <==>
      ParseInt(Slice(id, 4, 6)).Success? && ParseInt(Slice(id, 4, 6)).value in RacecourseDict
      && ParseInt(Slice(id, 6, 8)).Success? && ParseInt(Slice(id, 8, 10)).Success?
      && ParseInt(Slice(id, 10, 12)).Success?
    ensures r.Success? ==>
      r.value.course in RacecourseCodes
      && RacecourseDict[ParseInt(Slice(id, 4, 6)).value] == r.value.course
      && ParseInt(Slice(id, 6, 8)) == Success(r.value.meeting)
      && ParseInt(Slice(id, 8, 10)) == Success(r.value.day)
      && ParseInt(Slice(id, 10, 12)) == Success(r.value.race)
  {
    CourseTablesAgree();
    var n :- ParseInt(Slice(id, 4, 6));
    if n !in RacecourseDict then Failure(KeyError)
    else
      var meeting :- ParseInt(Slice(id, 6, 8));
      var day :- ParseInt(Slice(id, 8, 10));
      var race :- ParseInt(Slice(id, 10, 12));
      Success(RaceKey(RacecourseDict[n], meeting, day, race))
  }

  /** The text the JRA race list shows for a meeting day: `f'{meeting}回{course}{day}日'`. */
  function MeetingLabel(course: string, meeting: int, day: int): string
  {
    IntToString(meeting) + "回" + course + IntToString(day) + "日"
  }

  /** The label `select_race_from_race_id` looks for, computed from the race id exactly as the
      source does: racecourse first, then meeting and day; the race number is not read here. */
  function JraLabel(id: string): (r: Result<string>)
    ensures r.Failure? ==> r.error == ValueError || r.error == KeyError
  {
    var n :- ParseInt(Slice(id, 4, 6));
    if n !in RacecourseDict then Failure(KeyError)
    else
      var meeting :- ParseInt(Slice(id, 6, 8));
      var day :- ParseInt(Slice(id, 8, 10));
      Success(MeetingLabel(RacecourseDict[n], meeting, day))
  }

  lemma TwoDigitValue(c: string)
    requires |c| == 2 && AllDigits(c)
    ensures DecimalValue(c) == DigitValue(c[0]) * 10 + DigitValue(c[1])
  {
    assert c[..1][..0] == [];
    assert c[..1] == [c[0]];
  }

  lemma CodeEntry(name: string)
    requires name in RacecourseCodes
    ensures var c := RacecourseCodes[name];
      |c| == 2 && AllDigits(c) && DecimalValue(c) in RacecourseDict && RacecourseDict[DecimalValue(c)] == name
  {
    assert name == "札幌" || name == "函館" || name == "福島" || name == "新潟" || name == "東京"
      || name == "中山" || name == "中京" || name == "京都" || name == "阪神" || name == "小倉";
    match name
    case "札幌" => CodeIs(name, "01", 1);
    case "函館" => CodeIs(name, "02", 2);
    case "福島" => CodeIs(name, "03", 3);
    case "新潟" => CodeIs(name, "04", 4);
    case "東京" => CodeIs(name, "05", 5);
    case "中山" => CodeIs(name, "06", 6);
    case "中京" => CodeIs(name, "07", 7);
    case "京都" => CodeIs(name, "08", 8);
    case "阪神" => CodeIs(name, "09", 9);
    case "小倉" => CodeIs(name, "10", 10);
  }

  /** One row of the two tables. */
  lemma CodeIs(name: string, c: string, n: int)
    requires name in RacecourseCodes && RacecourseCodes[name] == c
    requires n in RacecourseDict && RacecourseDict[n] == name
    requires |c| == 2 && IsDigit(c[0]) && IsDigit(c[1]) && DigitValue(c[0]) * 10 + DigitValue(c[1]) == n
    ensures AllDigits(c) && DecimalValue(c) == n
  {
    TwoDigitValue(c);
  }

  lemma DictEntry(n: int)
    requires n in RacecourseDict
    ensures RacecourseDict[n] in RacecourseCodes && DecimalValue(RacecourseCodes[RacecourseDict[n]]) == n
  {
    if n == 1 { assert RacecourseDict[n] == "札幌"; }
    else if n == 2 { assert RacecourseDict[n] == "函館"; }
    else if n == 3 { assert RacecourseDict[n] == "福島"; }
    else if n == 4 { assert RacecourseDict[n] == "新潟"; }
    else if n == 5 { assert RacecourseDict[n] == "東京"; }
    else if n == 6 { assert RacecourseDict[n] == "中山"; }
    else if n == 7 { assert RacecourseDict[n] == "中京"; }
    else if n == 8 { assert RacecourseDict[n] == "京都"; }
    else if n == 9 { assert RacecourseDict[n] == "阪神"; }
    TwoDigitValue(RacecourseCodes[RacecourseDict[n]]);
  }

  /** The two tables agree: every code is two digits whose value names, in `RACECOURSE_DICT`,
      the racecourse it was listed for, and every racecourse of `RACECOURSE_DICT` has a code. */
  lemma CourseTablesAgree()
    ensures forall name | name in RacecourseCodes ::
      var c := RacecourseCodes[name];
      |c| == 2 && AllDigits(c) && DecimalValue(c) in RacecourseDict && RacecourseDict[DecimalValue(c)] == name
    ensures forall n | n in RacecourseDict ::
      RacecourseDict[n] in RacecourseCodes && DecimalValue(RacecourseCodes[RacecourseDict[n]]) == n
  {
    forall name | name in RacecourseCodes
      ensures var c := RacecourseCodes[name];
        |c| == 2 && AllDigits(c) && DecimalValue(c) in RacecourseDict && RacecourseDict[DecimalValue(c)] == name
    {
      CodeEntry(name);
    }
    forall n | n in RacecourseDict
      ensures RacecourseDict[n] in RacecourseCodes && DecimalValue(RacecourseCodes[RacecourseDict[n]]) == n
    {
      DictEntry(n);
    }
  }

  /** Distinct racecourses have distinct codes. */
  lemma CodesInjective(a: string, b: string)
    requires a in RacecourseCodes && b in RacecourseCodes && RacecourseCodes[a] == RacecourseCodes[b]
    ensures a == b
  {
    CourseTablesAgree();
  }

  lemma SliceOfConcat(a: string, b: string, c: string)
    ensures Slice(a + b + c, |a|, |a| + |b|) == b
  {
    assert (a + b + c)[|a|..|a| + |b|] == b;
  }

  /** Building a result-page race id from a known racecourse and three two-digit fields and
      decoding it gives back the racecourse and the fields' values; the id has twelve characters. */
  lemma {:induction false} DecodeResultRaceId(name: string, count: string, raceDate: string, raceNum: string)
    requires name in RacecourseCodes
    requires |count| == 2 && AllDigits(count) && |raceDate| == 2 && AllDigits(raceDate)
    requires |raceNum| == 2 && AllDigits(raceNum)
    ensures var id := ResultRaceId(RacecourseCodes[name], count, raceDate, raceNum);
      |id| == 12
      && DecodeRaceId(id) == Success(RaceKey(name, DecimalValue(count), DecimalValue(raceDate), DecimalValue(raceNum)))
  {
    CourseTablesAgree();
    var code := RacecourseCodes[name];
    var id := ResultRaceId(code, count, raceDate, raceNum);
    SliceOfConcat("2024", code, count + raceDate + raceNum);
    SliceOfConcat("2024" + code, count, raceDate + raceNum);
    SliceOfConcat("2024" + code + count, raceDate, raceNum);
    SliceOfConcat("2024" + code + count + raceDate, raceNum, "");
    assert id == "2024" + code + (count + raceDate + raceNum);
    assert id == "2024" + code + count + (raceDate + raceNum);
    assert id == "2024" + code + count + raceDate + raceNum + "";
  }

  /** The headline round trip: a race key with a known racecourse and two-digit fields, written
      out as a race id with zero-padded fields, decodes to itself. */
  lemma DecodeEncode(key: RaceKey)
    requires key.course in RacecourseCodes
    requires 0 <= key.meeting < 100 && 0 <= key.day < 100 && 0 <= key.race < 100
    ensures DecodeRaceId(ResultRaceId(RacecourseCodes[key.course],
      PadZero(key.meeting, 2), PadZero(key.day, 2), PadZero(key.race, 2))) == Success(key)
  {
    assert Pow10(2) == 10 * (10 * Pow10(0));
    PadZeroSpec(key.meeting, 2);
    PadZeroSpec(key.day, 2);
    PadZeroSpec(key.race, 2);
    DecodeResultRaceId(key.course, PadZero(key.meeting, 2), PadZero(key.day, 2), PadZero(key.race, 2));
  }

  /** The lookup label agrees with the decoded race id wherever the id decodes. */
  lemma JraLabelOfDecoded(id: string)
    requires DecodeRaceId(id).Success?
    ensures var k := DecodeRaceId(id).value; JraLabel(id) == Success(MeetingLabel(k.course, k.meeting, k.day))
  {
  }
}
