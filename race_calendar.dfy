/** The `/date_result` handler: a racecourse, a `YYYY-MM-DD` date and a race number lead, through
    the netkeiba calendar, to the race code of that race. The two fetches are I/O: their statuses
    and the parts of the pages the handler reads (the anchors' hrefs, the race blocks) are given. */
module RaceCalendar {
  import opened Wrappers
  import opened Text
  import opened RaceId

  /** The request body. */
  datatype DateRequest = DateRequest(racecourse: string, selectedDate: string, raceNum: string)

  /** A `Race_Num Race_Fixed` block: the text of its first `span`, and the `id` of its
      `MyRaceCheck` span (`None` outside when there is no such span, inside when it has no id). */
  datatype RaceBlock = RaceBlock(span: Option<string>, myRace: Option<Option<string>>)

  const ListPrefix: string := "../top/race_list.html?"
  const MobilePrefix: string := "https://race.sp.netkeiba.com/?pid=race_list&"
  const MyRacePrefix: string := "myrace_"

  /** `f"{racecourse_code}"` of `racecourse_codes.get(...)`: an unknown racecourse renders as `None`. */
  function CodeText(racecourse: string): string
  {
    if racecourse in RacecourseCodes then RacecourseCodes[racecourse] else "None"
  }

  /** `race_num + "R"`: the wanted of the race's block. */
  function RaceLabel(raceNum: string): string
  {
    raceNum + "R"
  }

  /** `year, month, date = selectedDate.split("-")`: ValueError unless there are exactly three parts. */
  function DateParts(selected: string): (r: Result<(string, string, string)>)
  {
    var parts := Split(selected, "-");
    if |parts| != 3 then Failure(ValueError) else Success((parts[0], parts[1], parts[2]))
  }

  /** The date splits exactly when it has two dashes; the parts have none and, joined with dashes,
      give the date back. */
  lemma DatePartsSpec(selected: string)
    ensures DateParts(selected).Success? <==> CountChar(selected, '-') == 2
    ensures DateParts(selected).Success? ==>
      var (y, m, d) := DateParts(selected).value;
      y + "-" + m + "-" + d == selected && !Contains(y, "-") && !Contains(m, "-") && !Contains(d, "-")
  {
    SplitCountChar(selected, '-');
    JoinSplit(selected, "-");
    SplitPiecesFree(selected, "-");
    var parts := Split(selected, "-");
    if |parts| == 3 {
      var tail := parts[1..];
      assert tail[0] == parts[1] && tail[1..] == [parts[2]] && |tail| == 2;
      assert Join(tail, "-") == parts[1] + "-" + parts[2];
      assert Join(parts, "-") == parts[0] + "-" + Join(tail, "-");
      assert parts[0] in parts && parts[1] in parts && parts[2] in parts;
    }
  }

  /** A `YYYY-MM-DD` date splits into its year, month and day. */
  lemma DatePartsOfIso(y: string, m: string, d: string)
    requires '-' !in y && '-' !in m && '-' !in d
    ensures DateParts(y + "-" + m + "-" + d) == Success((y, m, d))
  {
    SplitJoinChar([y, m, d], '-');
    assert Join([y, m, d], "-") == y + "-" + m + "-" + d by {
      assert [y, m, d][1..] == [m, d] && [m, d][1..] == [d];
      assert Join([m, d], "-") == m + "-" + d;
      assert Join([y, m, d], "-") == y + "-" + (m + "-" + d);
    }
  }

  /** The calendar page of the month. */
  function CalendarUrl(year: string, month: string): string
  {
    "https://race.netkeiba.com/top/calendar.html?year=" + year + "&month=" + month
  }

  /** The text the day's anchor contains. */
  function DayLink(year: string, month: string, day: string): string
  {
    ListPrefix + "kaisai_date=" + year + month + day
  }

  /** The first anchor at or after `i`, in page order, whose href contains `needle`:
      `needle in a.get('href')` raises TypeError at an anchor without an href before one is found. */
  function FirstAnchorFrom(hrefs: seq<Option<string>>, needle: string, i: nat): (r: Result<Option<nat>>)
    ensures r.Failure? ==> r.error == TypeError
    ensures r.Success? && r.value.Some? ==> i <= r.value.value < |hrefs| && hrefs[r.value.value].Some?
    decreases |hrefs| - i
  {
    if i >= |hrefs| then Success(None)
    else
      match hrefs[i]
      case None => Failure(TypeError)
      case Some(h) => if Contains(h, needle) then Success(Some(i)) else FirstAnchorFrom(hrefs, needle, i + 1)
  }

  function FirstAnchor(hrefs: seq<Option<string>>, needle: string): (r: Result<Option<nat>>)
    ensures r.Success? && r.value.Some? ==> r.value.value < |hrefs| && hrefs[r.value.value].Some?
  {
    FirstAnchorFrom(hrefs, needle, 0)
  }

  /** The anchor found is the first with an href that contains the needle, every anchor before it
      has an href; nothing is found exactly when every anchor has an href without the needle. */
  lemma {:induction false} FirstAnchorFromSpec(hrefs: seq<Option<string>>, needle: string, i: nat)
    ensures var r := FirstAnchorFrom(hrefs, needle, i);
      (r.Success? && r.value.Some? ==>
        var j := r.value.value;
        i <= j < |hrefs| && hrefs[j].Some? && Contains(hrefs[j].value, needle)
        && forall k | i <= k < j :: hrefs[k].Some? && !Contains(hrefs[k].value, needle))
      && (r == Success(None) <==> forall k | i <= k < |hrefs| :: hrefs[k].Some? && !Contains(hrefs[k].value, needle))
    decreases |hrefs| - i
  {
    if i < |hrefs| && hrefs[i].Some? && !Contains(hrefs[i].value, needle) {
      FirstAnchorFromSpec(hrefs, needle, i + 1);
    }
  }

  lemma FirstAnchorSpec(hrefs: seq<Option<string>>, needle: string)
    ensures var r := FirstAnchor(hrefs, needle);
      (r.Success? && r.value.Some? ==>
        var j := r.value.value;
        j < |hrefs| && hrefs[j].Some? && Contains(hrefs[j].value, needle)
        && forall k | 0 <= k < j :: hrefs[k].Some? && !Contains(hrefs[k].value, needle))
      && (r == Success(None) <==> forall k | 0 <= k < |hrefs| :: hrefs[k].Some? && !Contains(hrefs[k].value, needle))
  {
    FirstAnchorFromSpec(hrefs, needle, 0);
  }

  /** The mobile race-list URL of a day: the relative list prefix rewritten to the mobile one, and
      the racecourse code appended. */
  function ListUrl(href: string, racecourse: string): string
  {
    Replace(href, ListPrefix, MobilePrefix) + "&jyo_cd=" + CodeText(racecourse)
  }

  /** A relative list link `../top/race_list.html?q` becomes the mobile page with the same query
      and the racecourse code; an unknown racecourse leaves `None` in the URL. */
  lemma ListUrlOfRelative(q: string, racecourse: string)
    requires !Contains(q, ListPrefix)
    ensures ListUrl(ListPrefix + q, racecourse) == MobilePrefix + q + "&jyo_cd=" + CodeText(racecourse)
    ensures racecourse !in RacecourseCodes ==> ListUrl(ListPrefix + q, racecourse) == MobilePrefix + q + "&jyo_cd=None"
  {
    ReplaceLeading(ListPrefix, q, MobilePrefix);
  }

  /** `race_id.replace("myrace_", "")`. */
  function RaceCode(id: string): string
  {
    Replace(id, MyRacePrefix, "")
  }

  /** The race code of `myrace_` followed by a code is that code. */
  lemma RaceCodeOfMyRace(code: string)
    requires !Contains(code, MyRacePrefix)
    ensures RaceCode(MyRacePrefix + code) == code
  {
    ReplaceLeading(MyRacePrefix, code, "");
  }

  /** The race-block search: the first block whose span reads `wanted` decides; its `MyRaceCheck`
      span is missing (TypeError) or has no id (KeyError), or gives the race code. When no block
      matches, the handler returns nothing. */
  function BlockCode(blocks: seq<RaceBlock>, wanted: string): (r: Result<Option<string>>)
    ensures r.Failure? ==> r.error == TypeError || r.error == KeyError
  {
    if blocks == [] then Success(None)
    else if blocks[0].span == Some(wanted) then
      match blocks[0].myRace
      case None => Failure(TypeError)
      case Some(None) => Failure(KeyError)
      case Some(Some(id)) => Success(Some(RaceCode(id)))
    else BlockCode(blocks[1..], wanted)
  }

  /** The search decides at the first block labelled `wanted`, and gives nothing when there is none. */
  lemma {:induction false} BlockCodeSpec(blocks: seq<RaceBlock>, wanted: string)
    ensures (forall k | 0 <= k < |blocks| :: blocks[k].span != Some(wanted)) ==> BlockCode(blocks, wanted) == Success(None)
    ensures forall i | 0 <= i < |blocks| && blocks[i].span == Some(wanted)
        && (forall k | 0 <= k < i :: blocks[k].span != Some(wanted)) ::
      BlockCode(blocks, wanted) == match blocks[i].myRace
        case None => Failure(TypeError)
        case Some(None) => Failure(KeyError)
        case Some(Some(id)) => Success(Some(RaceCode(id)))
  {
    if blocks != [] {
      BlockCodeSpec(blocks[1..], wanted);
      assert forall k | 1 <= k < |blocks| :: blocks[k] == blocks[1..][k - 1];
    }
  }

  /** `get_kaisai_date_url` up to the second fetch: the date parts, the calendar fetch (500 unless
      it answers 200), the day's anchor (404 when there is none) and the list URL it leads to. */
  function ListUrlOf(req: DateRequest, calendarStatus: int, hrefs: seq<Option<string>>): Result<string>
  {
    var (year, month, day) :- DateParts(req.selectedDate);
    if calendarStatus != 200 then Failure(HttpError(500))
    else
      var found :- FirstAnchor(hrefs, DayLink(year, month, day));
      match found
      case None => Failure(HttpError(404))
      case Some(i) => Success(ListUrl(hrefs[i].value, req.racecourse))
  }

  /** `get_kaisai_date_url`: the list URL, the list fetch (500 unless it answers 200) and the race
      code of the block labelled with the race number. */
  function KaisaiDate(req: DateRequest, calendarStatus: int, hrefs: seq<Option<string>>,
                      listStatus: int, blocks: seq<RaceBlock>): Result<Option<string>>
  {
    var url :- ListUrlOf(req, calendarStatus, hrefs);
    if listStatus != 200 then Failure(HttpError(500))
    else BlockCode(blocks, RaceLabel(req.raceNum))
  }

  /** The handler's outcomes, in the order it meets them: a date without two dashes (ValueError),
      a failed calendar fetch (500), no anchor of the day (404), a failed list fetch (500); past
      these, the race code of the first block labelled with the race number, or nothing. */
  lemma KaisaiDateSpec(req: DateRequest, calendarStatus: int, hrefs: seq<Option<string>>,
                       listStatus: int, blocks: seq<RaceBlock>)
    ensures DateParts(req.selectedDate).Failure? <==> CountChar(req.selectedDate, '-') != 2
    ensures var r := KaisaiDate(req, calendarStatus, hrefs, listStatus, blocks);
      if DateParts(req.selectedDate).Failure? then r == Failure(ValueError)
      else if calendarStatus != 200 then r == Failure(HttpError(500))
      else
        var (y, m, d) := DateParts(req.selectedDate).value;
        var found := FirstAnchor(hrefs, DayLink(y, m, d));
        if found.Failure? then r == Failure(TypeError)
        else if found.value.None? then r == Failure(HttpError(404))
        else if listStatus != 200 then r == Failure(HttpError(500))
        else r == BlockCode(blocks, RaceLabel(req.raceNum))
  {
    DatePartsSpec(req.selectedDate);
  }

  /** The handler with its two loops: the anchor loop that stops at the first match, and the block
      loop that returns from the first block carrying the wanted. `listUrl` is the URL of the second
      fetch. */
  method GetKaisaiDateUrl(req: DateRequest, calendarStatus: int, hrefs: seq<Option<string>>,
                          listStatus: int, blocks: seq<RaceBlock>) returns (listUrl: string, r: Result<Option<string>>)
    ensures r == KaisaiDate(req, calendarStatus, hrefs, listStatus, blocks)
    ensures ListUrlOf(req, calendarStatus, hrefs).Success? ==> listUrl == ListUrlOf(req, calendarStatus, hrefs).value
  {
    listUrl := "";
    var raceNum := RaceLabel(req.raceNum);
    var parts := DateParts(req.selectedDate);
    if parts.Failure? {
      return listUrl, Failure(parts.error);
    }
    var (year, month, day) := parts.value;
    if calendarStatus != 200 {
      return listUrl, Failure(HttpError(500));
    }
    var needle := DayLink(year, month, day);
    var kaisai: Option<nat> := None;
    var i := 0;
    while i < |hrefs|
      invariant 0 <= i <= |hrefs|
      invariant kaisai.None? ==> FirstAnchorFrom(hrefs, needle, i) == FirstAnchor(hrefs, needle)
      invariant kaisai.Some? ==> FirstAnchor(hrefs, needle) == Success(kaisai) && kaisai.value < |hrefs|
      decreases if kaisai.None? then |hrefs| - i else 0
    {
      if hrefs[i].None? {
        return listUrl, Failure(TypeError);
      }
      if Contains(hrefs[i].value, needle) {
        kaisai := Some(i);
        break;
      }
      i := i + 1;
    }
    if kaisai.None? {
      return listUrl, Failure(HttpError(404));
    }
    FirstAnchorSpec(hrefs, needle);
    listUrl := ListUrl(hrefs[kaisai.value].value, req.racecourse);
    if listStatus != 200 {
      return listUrl, Failure(HttpError(500));
    }
    for k := 0 to |blocks|
      invariant BlockCode(blocks[k..], raceNum) == BlockCode(blocks, raceNum)
    {
      assert blocks[k..][1..] == blocks[k + 1..];
      if blocks[k].span == Some(raceNum) {
        match blocks[k].myRace
        case None => return listUrl, Failure(TypeError);
        case Some(None) => return listUrl, Failure(KeyError);
        case Some(Some(id)) => return listUrl, Success(Some(RaceCode(id)));
      }
    }
    r := Success(None);
  }
}
