/** `RealTimeOddsScraper`: navigation of the JRA odds pages as a state machine, and the reshaping
    of the pair-odds tables it reads. The browser is not modelled: what a page shows (the texts of
    the race blocks, the headers of the week, the number of race buttons, the odds tables) is
    given to the operation that reads it. `status` is 0 before any page is shown, 1 on the list
    of racecourses, 2 on a racecourse's list of races and 3 on a race's odds page. */
module RealTimeOdds {
  import opened Wrappers
  import opened Text
  import opened RaceId

  /** A `div` of the race-list page: which `link_list` block and which `div` in it. */
  datatype ElementRef = ElementRef(day: nat, pos: nat)

  /** An entry of `race_list`: its text (the day's header and the div's text) and its element. */
  datatype RaceEntry = RaceEntry(text: string, element: ElementRef)

  /** A row of an odds table: the horse number column and the odds (an opaque payload). */
  datatype OddsRow = OddsRow(horse: int, odds: string)

  /** A row of a pair-odds frame: First, Second and Odds. */
  datatype PairRow = PairRow(first: int, second: int, odds: string)

  /** `text.replace('\n', '').replace(' ', '')` */
  function Clean(t: string): string
  {
    Replace(Replace(t, "\n", ""), " ", "")
  }

  /** Cleaning drops exactly the newlines and the spaces. */
  lemma CleanSpec(t: string)
    ensures Clean(t) == RemoveChar(RemoveChar(t, '\n'), ' ')
    ensures '\n' !in Clean(t) && ' ' !in Clean(t)
    ensures forall x | x in Clean(t) :: x in t
  {
    ReplaceCharWithEmpty(t, '\n');
    ReplaceCharWithEmpty(RemoveChar(t, '\n'), ' ');
  }

  // ---------------------------------------------------------------- get_race_list

  /** The entries of block `i`: the day's header followed by each div's cleaned text. */
  function DayEntries(dateInfo: seq<string>, texts: seq<string>, i: nat): seq<RaceEntry>
    requires i < |dateInfo|
  {
    seq(|texts|, j requires 0 <= j < |texts| => RaceEntry(dateInfo[i] + Clean(texts[j]), ElementRef(i, j)))
  }

  /** The entries of the blocks in order; block `i` reads `date_info[i]`, which raises IndexError
      when the week has fewer headers than blocks. */
  function Entries(dateInfo: seq<string>, blocks: seq<seq<string>>): Result<seq<RaceEntry>>
  {
    if blocks == [] then Success([])
    else
      var i := |blocks| - 1;
      var front :- Entries(dateInfo, blocks[..i]);
      if i >= |dateInfo| then Failure(IndexError)
      else Success(front + DayEntries(dateInfo, blocks[i], i))
  }

  /** `get_race_list`: before `date_info` has been read, the first block raises AttributeError,
      and a page without blocks gives no entries. */
  function RaceListOf(dateInfo: Option<seq<string>>, blocks: seq<seq<string>>): Result<seq<RaceEntry>>
  {
    match dateInfo
    case None => if blocks == [] then Success([]) else Failure(AttributeError)
    case Some(d) => Entries(d, blocks)
  }

  /** The entries exist exactly when there is a header for every block; then entry `e` of block
      `i`, div `j` has the text `date_info[i]` followed by the div's text without newlines and
      spaces, and every div has its entry. */
  lemma {:induction false} EntriesSpec(dateInfo: seq<string>, blocks: seq<seq<string>>)
    ensures Entries(dateInfo, blocks).Success? <==> |blocks| <= |dateInfo|
    ensures Entries(dateInfo, blocks).Failure? ==> Entries(dateInfo, blocks).error == IndexError
    ensures Entries(dateInfo, blocks).Success? ==>
      var es := Entries(dateInfo, blocks).value;
      (forall e | e in es :: e.element.day < |blocks| && e.element.pos < |blocks[e.element.day]|
        && e.text == dateInfo[e.element.day] + Clean(blocks[e.element.day][e.element.pos]))
      && forall i, j | 0 <= i < |blocks| && 0 <= j < |blocks[i]| ::
        RaceEntry(dateInfo[i] + Clean(blocks[i][j]), ElementRef(i, j)) in es
  {
    if blocks != [] {
      var i := |blocks| - 1;
      var front := blocks[..i];
      EntriesSpec(dateInfo, front);
      assert forall k | 0 <= k < i :: front[k] == blocks[k];
      if Entries(dateInfo, blocks).Success? {
        var es := Entries(dateInfo, blocks).value;
        var fe := Entries(dateInfo, front).value;
        var de := DayEntries(dateInfo, blocks[i], i);
        assert es == fe + de;
        forall a, b | 0 <= a < |blocks| && 0 <= b < |blocks[a]|
          ensures RaceEntry(dateInfo[a] + Clean(blocks[a][b]), ElementRef(a, b)) in es
        {
          if a == i {
            assert de[b] == RaceEntry(dateInfo[a] + Clean(blocks[a][b]), ElementRef(a, b));
          }
        }
      }
    }
  }

  // ---------------------------------------------------------------- select_race_from_race_id

  /** Div `j` of block `i` exists and its cleaned text contains `needle`. */
  predicate Hit(blocks: seq<seq<string>>, needle: string, i: nat, j: nat)
  {
    i < |blocks| && j < |blocks[i]| && Contains(Clean(blocks[i][j]), needle)
  }

  /** Position (a, b) comes before (i, j) in the page's order. */
  predicate Before(a: nat, b: nat, i: nat, j: nat)
  {
    a < i || (a == i && b < j)
  }

  /** The first div at or after (i, j), in page order, whose cleaned text contains `needle`. */
  function FirstHitFrom(blocks: seq<seq<string>>, needle: string, i: nat, j: nat): (r: Option<ElementRef>)
    ensures r.Some? ==> Hit(blocks, needle, r.value.day, r.value.pos) && !Before(r.value.day, r.value.pos, i, j)
    ensures r.Some? ==> forall a, b | !Before(a, b, i, j) && Before(a, b, r.value.day, r.value.pos) ::
      !Hit(blocks, needle, a, b)
    ensures r.None? ==> forall a, b | !Before(a, b, i, j) :: !Hit(blocks, needle, a, b)
    decreases |blocks| - i, if i < |blocks| then |blocks[i]| - j else 0
  {
    if i >= |blocks| then None
    else if j >= |blocks[i]| then FirstHitFrom(blocks, needle, i + 1, 0)
    else if Contains(Clean(blocks[i][j]), needle) then Some(ElementRef(i, j))
    else FirstHitFrom(blocks, needle, i, j + 1)
  }

  /** The first div of the page whose cleaned text contains `needle`. */
  function FirstHit(blocks: seq<seq<string>>, needle: string): Option<ElementRef>
  {
    FirstHitFrom(blocks, needle, 0, 0)
  }

  /** The search finds a div exactly when some div contains the needle, and finds the first. */
  lemma FirstHitSpec(blocks: seq<seq<string>>, needle: string)
    ensures FirstHit(blocks, needle).None? <==> forall a, b :: !Hit(blocks, needle, a, b)
    ensures FirstHit(blocks, needle).Some? ==>
      var e := FirstHit(blocks, needle).value;
      Hit(blocks, needle, e.day, e.pos) && forall a, b | Before(a, b, e.day, e.pos) :: !Hit(blocks, needle, a, b)
  {
    if FirstHit(blocks, needle).Some? {
      var e := FirstHit(blocks, needle).value;
      assert Hit(blocks, needle, e.day, e.pos);
    }
  }

  /** The needle a race id looks for is a meeting needle whenever the id decodes. */
  lemma LabelOfRaceId(id: string)
    requires DecodeRaceId(id).Success?
    ensures var k := DecodeRaceId(id).value; JraLabel(id) == Success(MeetingLabel(k.course, k.meeting, k.day))
  {
    JraLabelOfDecoded(id);
  }

  // ---------------------------------------------------------------- pair-odds tables

  /** Table `i` of the page labelled `First = i + 1`: its rows give Second and Odds. */
  function Labelled(df: seq<OddsRow>, first: int): seq<PairRow>
  {
    seq(|df|, k requires 0 <= k < |df| => PairRow(first, df[k].horse, df[k].odds))
  }

  /** `pd.concat` of the labelled tables, in order. */
  function PairRows(dfs: seq<seq<OddsRow>>): seq<PairRow>
  {
    if dfs == [] then [] else PairRows(dfs[..|dfs| - 1]) + Labelled(dfs[|dfs| - 1], |dfs|)
  }

  /** The rows of the pair frame are exactly the rows of the tables, each labelled with its
      table's number (one plus its index). */
  lemma {:induction false} PairRowsSpec(dfs: seq<seq<OddsRow>>)
    ensures forall f, sc, o :: PairRow(f, sc, o) in PairRows(dfs) <==>
      1 <= f <= |dfs| && OddsRow(sc, o) in dfs[f - 1]
  {
    if dfs != [] {
      var n := |dfs|;
      var front := dfs[..n - 1];
      PairRowsSpec(front);
      assert forall k | 0 <= k < n - 1 :: front[k] == dfs[k];
      var lab := Labelled(dfs[n - 1], n);
      forall f, sc, o ensures PairRow(f, sc, o) in lab <==> f == n && OddsRow(sc, o) in dfs[n - 1] {
        if PairRow(f, sc, o) in lab {
          var k :| 0 <= k < |lab| && lab[k] == PairRow(f, sc, o);
          assert dfs[n - 1][k] == OddsRow(sc, o);
        }
        if f == n && OddsRow(sc, o) in dfs[n - 1] {
          var k :| 0 <= k < |dfs[n - 1]| && dfs[n - 1][k] == OddsRow(sc, o);
          assert lab[k] == PairRow(f, sc, o);
        }
      }
    }
  }

  /** The number of rows is the total number of table rows. */
  function TotalRows(dfs: seq<seq<OddsRow>>): nat
  {
    if dfs == [] then 0 else TotalRows(dfs[..|dfs| - 1]) + |dfs[|dfs| - 1]|
  }

  lemma {:induction false} PairRowsCount(dfs: seq<seq<OddsRow>>)
    ensures |PairRows(dfs)| == TotalRows(dfs)
  {
    if dfs != [] {
      PairRowsCount(dfs[..|dfs| - 1]);
    }
  }

  /** `df[~(df.First == df.Second)]`: the rows whose two horses differ, in order. */
  function WithoutSelfPairs(rows: seq<PairRow>): seq<PairRow>
  {
    if rows == [] then []
    else
      var front := WithoutSelfPairs(rows[..|rows| - 1]);
      var last := rows[|rows| - 1];
      if last.first == last.second then front else front + [last]
  }

  /** 馬単 keeps exactly the rows whose First and Second differ. */
  lemma {:induction false} WithoutSelfPairsSpec(rows: seq<PairRow>)
    ensures forall x :: x in WithoutSelfPairs(rows) <==> x in rows && x.first != x.second
  {
    if rows != [] {
      var front := rows[..|rows| - 1];
      WithoutSelfPairsSpec(front);
      assert rows == front + [rows[|rows| - 1]];
    }
  }

  /** The pair frame of a tab: `pd.concat` of no tables raises ValueError. */
  function PairFrame(dfs: seq<seq<OddsRow>>): Result<seq<PairRow>>
  {
    if dfs == [] then Failure(ValueError) else Success(PairRows(dfs))
  }

  /** The labelling loop of `get_umaren_odds`, `get_wide_odds` and `get_umatan_odds`. */
  method LabelTables(dfs: seq<seq<OddsRow>>) returns (r: Result<seq<PairRow>>)
    ensures r == PairFrame(dfs)
  {
    if dfs == [] {
      return Failure(ValueError);
    }
    var rows: seq<PairRow> := [];
    for i := 0 to |dfs|
      invariant rows == PairRows(dfs[..i])
    {
      assert dfs[..i + 1][..i] == dfs[..i] && dfs[..i + 1][i] == dfs[i];
      var df := dfs[i];
      var labelled: seq<PairRow> := [];
      for k := 0 to |df|
        invariant labelled == Labelled(df, i + 1)[..k]
      {
        labelled := labelled + [PairRow(i + 1, df[k].horse, df[k].odds)];
      }
      assert Labelled(df, i + 1)[..|df|] == Labelled(df, i + 1);
      rows := rows + labelled;
    }
    assert dfs[..|dfs|] == dfs;
    r := Success(rows);
  }

  // ---------------------------------------------------------------- the scraper

  class RealTimeOddsScraper {
    var status: int
    var indexBase: bool
    var dateInfo: Option<seq<string>>
    var raceList: Option<seq<RaceEntry>>

    /** The initial state: no page shown and the index base set; with `select_manually` the
        racecourse list is read at once (`headers` and `blocks` are what that page shows), and a
        list that cannot be read leaves `raceList` empty where the source raises. */
    constructor(selectManually: bool, headers: seq<string>, blocks: seq<seq<string>>)
      ensures indexBase
      ensures !selectManually ==> status == 0 && dateInfo.None? && raceList.None?
      ensures selectManually ==> status == 1 && dateInfo == Some(headers)
      ensures selectManually ==>
        raceList == if Entries(headers, blocks).Success? then Some(Entries(headers, blocks).value) else None
    {
      status := 0;
      indexBase := true;
      dateInfo := None;
      raceList := None;
      new;
      if selectManually {
        var _ := GetRacecourseList(headers, blocks);
      }
    }

    /** The tab `_select_baken_type(k + self.__index_base)` clicks. */
    function BakenIndex(k: int): int
      reads this
    {
      k + if indexBase then 1 else 0
    }

    /** `change_indexbase` flips the flag and nothing else, so calling it twice restores it. */
    method ChangeIndexbase()
      modifies this
      ensures indexBase == !old(indexBase)
      ensures status == old(status) && dateInfo == old(dateInfo) && raceList == old(raceList)
      ensures forall k :: BakenIndex(k) == old(BakenIndex(k)) + (if indexBase then 1 else -1)
    {
      indexBase := !indexBase;
    }

    /** `visit_race_list_page`: from any state to the list of racecourses. */
    method VisitRaceListPage()
      modifies this
      ensures status == 1
      ensures indexBase == old(indexBase) && dateInfo == old(dateInfo) && raceList == old(raceList)
    {
      status := 1;
    }

    /** `get_date_info`: the week's day headers as the page shows them. */
    method GetDateInfo(headers: seq<string>) returns (r: seq<string>)
      requires status == 1
      ensures r == headers
    {
      r := headers;
    }

    /** `get_race_list`: one entry per div of each block. */
    method GetRaceList(blocks: seq<seq<string>>) returns (r: Result<seq<RaceEntry>>)
      requires status == 1
      ensures r == RaceListOf(dateInfo, blocks)
    {
      if dateInfo.None? {
        if blocks == [] {
          return Success([]);
        }
        return Failure(AttributeError);
      }
      var d := dateInfo.value;
      var entries: seq<RaceEntry> := [];
      for i := 0 to |blocks|
        invariant Entries(d, blocks[..i]) == Success(entries)
      {
        assert blocks[..i + 1][..i] == blocks[..i] && blocks[..i + 1][i] == blocks[i];
        var texts := blocks[i];
        if i >= |d| {
          EntriesStop(d, blocks, i);
          return Failure(IndexError);
        }
        var day: seq<RaceEntry> := [];
        for j := 0 to |texts|
          invariant day == DayEntries(d, texts, i)[..j]
        {
          day := day + [RaceEntry(d[i] + Clean(texts[j]), ElementRef(i, j))];
        }
        assert DayEntries(d, texts, i)[..|texts|] == DayEntries(d, texts, i);
        entries := entries + day;
      }
      assert blocks[..|blocks|] == blocks;
      r := Success(entries);
    }

    /** `get_racecourse_list`: shows the list, then reads the headers and the entries. */
    method GetRacecourseList(headers: seq<string>, blocks: seq<seq<string>>) returns (r: Result<seq<RaceEntry>>)
      modifies this
      ensures status == 1 && indexBase == old(indexBase) && dateInfo == Some(headers)
      ensures r == Entries(headers, blocks)
      ensures raceList == if r.Success? then Some(r.value) else old(raceList)
    {
      VisitRaceListPage();
      var d := GetDateInfo(headers);
      dateInfo := Some(d);
      r := GetRaceList(blocks);
      if r.Success? {
        raceList := Some(r.value);
      }
    }

    /** `select_racecourse(idx)`: Python indexing of `race_list` (a negative index counts from
        the end); on success the list is dropped and the racecourse's races are shown. */
    method SelectRacecourse(idx: int) returns (r: Result<RaceEntry>)
      requires status == 1 && raceList.Some?
      modifies this
      ensures var l := old(raceList.value);
        if -|l| <= idx < |l| then
          r == Success(l[if idx < 0 then idx + |l| else idx]) && raceList.None? && status == 2
        else
          r == Failure(IndexError) && raceList == old(raceList) && status == 1
      ensures indexBase == old(indexBase) && dateInfo == old(dateInfo)
    {
      var l := raceList.value;
      if !(-|l| <= idx < |l|) {
        return Failure(IndexError);
      }
      r := Success(l[if idx < 0 then idx + |l| else idx]);
      raceList := None;
      status := 2;
    }

    /** `select_race(race_num)` on a page with `raceCount` race buttons. */
    method SelectRace(raceNum: int, raceCount: nat) returns (r: Result<()>)
      requires status == 2 && 0 < raceNum < 13
      modifies this
      ensures raceNum - 1 < raceCount ==> r == Success(()) && status == 3
      ensures raceNum - 1 >= raceCount ==> r == Failure(IndexError) && status == 2
      ensures indexBase == old(indexBase) && dateInfo == old(dateInfo) && raceList == old(raceList)
    {
      var k := raceNum - 1;
      if k >= raceCount {
        return Failure(IndexError);
      }
      status := 3;
      r := Success(());
    }

    /** `select_race_from_race_id`: shows the list, looks for the meeting needle of the id in the
        divs in page order, opens the first that contains it and selects the race number there.
        Without such a div nothing is opened and the list stays shown. */
    method SelectRaceFromRaceId(raceId: string, blocks: seq<seq<string>>, raceCount: nat)
      returns (r: Result<Option<ElementRef>>)
      requires |raceId| == 12
      modifies this
      ensures indexBase == old(indexBase) && dateInfo == old(dateInfo) && raceList == old(raceList)
      ensures JraLabel(raceId).Failure? ==> r == Failure(JraLabel(raceId).error) && status == 1
      ensures JraLabel(raceId).Success? && FirstHit(blocks, JraLabel(raceId).value).None? ==>
        r == Success(None) && status == 1
      ensures JraLabel(raceId).Success? && FirstHit(blocks, JraLabel(raceId).value).Some? ==>
        var n := ParseInt(Slice(raceId, 10, 12));
        if n.Failure? then r == Failure(ValueError) && status == 2
        else if !(0 < n.value < 13) then r == Failure(AssertionError) && status == 2
        else if n.value - 1 >= raceCount then r == Failure(IndexError) && status == 2
        else r == Success(FirstHit(blocks, JraLabel(raceId).value)) && status == 3
    {
      VisitRaceListPage();
      var needle := JraLabel(raceId);
      if needle.Failure? {
        return Failure(needle.error);
      }
      var txt := needle.value;
      for i := 0 to |blocks|
        invariant status == 1 && indexBase == old(indexBase) && dateInfo == old(dateInfo) && raceList == old(raceList)
        invariant FirstHitFrom(blocks, txt, i, 0) == FirstHit(blocks, txt)
      {
        for j := 0 to |blocks[i]|
          invariant status == 1 && indexBase == old(indexBase) && dateInfo == old(dateInfo) && raceList == old(raceList)
          invariant FirstHitFrom(blocks, txt, i, j) == FirstHit(blocks, txt)
        {
          var text := Clean(blocks[i][j]);
          if Contains(text, txt) {
            status := 2;
            var n := ParseInt(Slice(raceId, 10, 12));
            if n.Failure? {
              return Failure(ValueError);
            }
            if !(0 < n.value < 13) {
              return Failure(AssertionError);
            }
            var s := SelectRace(n.value, raceCount);
            if s.Failure? {
              return Failure(s.error);
            }
            return Success(Some(ElementRef(i, j)));
          }
        }
      }
      r := Success(None);
    }

    /** `get_tansho_odds`: the first table's horse numbers and odds, from tab 0. */
    method GetTanshoOdds(dfs: seq<seq<OddsRow>>) returns (tab: int, r: Result<seq<OddsRow>>)
      requires status == 3
      ensures tab == 0
      ensures r == if dfs == [] then Failure(ValueError) else Success(dfs[0])
    {
      tab := 0;
      // No tables: `pd.read_html` raises ValueError before `dfs[0]` is reached.
      if dfs == [] {
        return tab, Failure(ValueError);
      }
      r := Success(dfs[0]);
    }

    /** `get_umaren_odds`: the labelled tables of the 馬連 tab. */
    method GetUmarenOdds(dfs: seq<seq<OddsRow>>) returns (tab: int, r: Result<seq<PairRow>>)
      requires status == 3
      ensures tab == BakenIndex(1) && r == PairFrame(dfs)
    {
      tab := BakenIndex(1);
      r := LabelTables(dfs);
    }

    /** `get_wide_odds`: the labelled tables of the ワイド tab. */
    method GetWideOdds(dfs: seq<seq<OddsRow>>) returns (tab: int, r: Result<seq<PairRow>>)
      requires status == 3
      ensures tab == BakenIndex(2) && r == PairFrame(dfs)
    {
      tab := BakenIndex(2);
      r := LabelTables(dfs);
    }

    /** `get_umatan_odds`: the labelled tables of the 馬単 tab without the rows pairing a horse
        with itself. */
    method GetUmatanOdds(dfs: seq<seq<OddsRow>>) returns (tab: int, r: Result<seq<PairRow>>)
      requires status == 3
      ensures tab == BakenIndex(3)
      ensures r == if dfs == [] then Failure(ValueError) else Success(WithoutSelfPairs(PairRows(dfs)))
    {
      tab := BakenIndex(3);
      var all := LabelTables(dfs);
      if all.Failure? {
        return tab, Failure(all.error);
      }
      r := Success(WithoutSelfPairs(all.value));
    }
  }

  /** Once block `i` has no header after the blocks before it were read, the list fails. */
  lemma {:induction false} EntriesStop(d: seq<string>, blocks: seq<seq<string>>, i: nat)
    requires i < |blocks| && Entries(d, blocks[..i]).Success? && i >= |d|
    ensures Entries(d, blocks) == Failure(IndexError)
    decreases |blocks|
  {
    if i < |blocks| - 1 {
      var front := blocks[..|blocks| - 1];
      assert front[..i] == blocks[..i];
      EntriesStop(d, front, i);
    } else {
      assert blocks[..|blocks| - 1] == blocks[..i];
    }
  }

  /** 馬単's rows are the pairs of distinct horses of the tables, each with its table's number. */
  lemma UmatanRows(dfs: seq<seq<OddsRow>>)
    ensures forall f, sc, o :: PairRow(f, sc, o) in WithoutSelfPairs(PairRows(dfs)) <==>
      1 <= f <= |dfs| && OddsRow(sc, o) in dfs[f - 1] && f != sc
  {
    PairRowsSpec(dfs);
    WithoutSelfPairsSpec(PairRows(dfs));
  }
}
