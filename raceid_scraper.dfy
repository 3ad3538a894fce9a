/** `RaceidScraper.get_raceID_list_from_date`: the race ids of one day, harvested from the links
    of netkeiba's race-list page for that day. The page is fetched for the date written in the
    basic format YYYYMMDD; every run of twelve digits in a link is a race id. */
module RaceidScraper {
  import opened Wrappers
  import opened Text
  import opened Regex
  import opened Dates

  /** `[0-9]{12}` */
  const RaceIdPattern: Pattern := [[Atom(Digit, 12, UpTo(12))]]

  /** What the scraper reads from a race-list page: the `href` of every `a` in `div.race_list`
      (`None` for an `a` without one), or `None` when the page has no such block. */
  datatype ListPage = ListPage(raceList: Option<seq<Option<string>>>)

  lemma RaceIdPatternSolid()
    ensures Solid(RaceIdPattern)
  {
    assert MinLength(RaceIdPattern[0]) == 12 by { assert RaceIdPattern[0][1..] == []; }
  }

  /** The pattern matches at `i` exactly when twelve digits start there, and then spans them. */
  lemma RaceIdMatch(s: string, i: nat)
    requires i <= |s|
    ensures MatchAt(RaceIdPattern, s, i).Some? <==> ClassRun(Digit, s, i) >= 12
    ensures MatchAt(RaceIdPattern, s, i).Some? ==>
      MatchAt(RaceIdPattern, s, i).value == i + 12 && AllDigits(s[i..i + 12])
  {
    var a := Atom(Digit, 12, UpTo(12));
    SingleBranch([a], s, i);
    SingleAtomMatch(a, s, i);
    if ClassRun(Digit, s, i) >= 12 {
      var f := s[i..i + 12];
      assert forall t | 0 <= t < |f| :: f[t] == s[i + t];
    }
  }

  /** Match `k` of an href is a twelve-digit string. */
  lemma MatchIsRaceId(h: string, k: nat)
    requires Solid(RaceIdPattern) && k < |FindAll(RaceIdPattern, h)|
    ensures |FindAll(RaceIdPattern, h)[k]| == 12 && AllDigits(FindAll(RaceIdPattern, h)[k])
  {
    var sp := Spans(RaceIdPattern, h, 0);
    RaceIdMatch(h, sp[k].0);
  }

  /** Every match in an href is a twelve-digit string, which `int` reads as its decimal value. */
  lemma MatchesAreRaceIds(h: string)
    ensures Solid(RaceIdPattern)
    ensures forall k | 0 <= k < |FindAll(RaceIdPattern, h)| ::
      |FindAll(RaceIdPattern, h)[k]| == 12 && AllDigits(FindAll(RaceIdPattern, h)[k])
  {
    RaceIdPatternSolid();
    forall k | 0 <= k < |FindAll(RaceIdPattern, h)|
      ensures |FindAll(RaceIdPattern, h)[k]| == 12 && AllDigits(FindAll(RaceIdPattern, h)[k])
    {
      MatchIsRaceId(h, k);
    }
  }

  /** `[int(s) for s in re.findall('[0-9]{12}', href)]`. */
  function MatchValues(h: string): seq<int>
  {
    MatchesAreRaceIds(h);
    var ms := FindAll(RaceIdPattern, h);
    seq(|ms|, k requires 0 <= k < |ms| => DecimalValue(ms[k]))
  }

  /** `race_id_list` after the loops over the hrefs: the values of their matches in order; an
      href of `None` makes `re.findall` raise TypeError. */
  function Harvested(hrefs: seq<Option<string>>): Result<seq<int>>
  {
    if hrefs == [] then Success([])
    else
      var front :- Harvested(hrefs[..|hrefs| - 1]);
      match hrefs[|hrefs| - 1]
      case None => Failure(TypeError)
      case Some(h) => Success(front + MatchValues(h))
  }

  /** `x` is the value of a match in one of the hrefs. */
  ghost predicate FoundIn(hrefs: seq<Option<string>>, x: int)
  {
    exists k | 0 <= k < |hrefs| :: hrefs[k].Some? && x in MatchValues(hrefs[k].value)
  }

  /** The harvest succeeds exactly when every link has an href; it can only raise TypeError. */
  lemma {:induction false} HarvestedSucceeds(hrefs: seq<Option<string>>)
    ensures Harvested(hrefs).Success? <==> forall k | 0 <= k < |hrefs| :: hrefs[k].Some?
    ensures Harvested(hrefs).Failure? ==> Harvested(hrefs).error == TypeError
  {
    if hrefs != [] {
      var front := hrefs[..|hrefs| - 1];
      HarvestedSucceeds(front);
      assert forall k | 0 <= k < |front| :: front[k] == hrefs[k];
    }
  }

  /** A successful harvest holds exactly the values found in the links. */
  lemma {:induction false} HarvestedSpec(hrefs: seq<Option<string>>)
    requires Harvested(hrefs).Success?
    ensures forall x :: x in Harvested(hrefs).value <==> FoundIn(hrefs, x)
  {
    if hrefs != [] {
      var front := hrefs[..|hrefs| - 1];
      var last := |hrefs| - 1;
      var fv := Harvested(front).value;
      var lv := MatchValues(hrefs[last].value);
      HarvestedSpec(front);
      assert Harvested(hrefs).value == fv + lv;
      forall x ensures x in fv + lv <==> FoundIn(hrefs, x) {
        if FoundIn(hrefs, x) {
          var k :| 0 <= k < |hrefs| && hrefs[k].Some? && x in MatchValues(hrefs[k].value);
          if k < last {
            assert front[k] == hrefs[k];
            assert FoundIn(front, x);
          }
        }
        if x in fv {
          assert FoundIn(front, x);
          var k :| 0 <= k < |front| && front[k].Some? && x in MatchValues(front[k].value);
          assert front[k] == hrefs[k];
        }
        if x in lv {
          assert hrefs[last].Some?;
        }
      }
    }
  }

  /** Every harvested value is an id of twelve digits, below 10^12. */
  lemma HarvestedBounded(hrefs: seq<Option<string>>)
    requires Harvested(hrefs).Success?
    ensures forall x | x in Harvested(hrefs).value :: 0 <= x < Pow10(12)
  {
    HarvestedSpec(hrefs);
    forall x | x in Harvested(hrefs).value ensures 0 <= x < Pow10(12) {
      assert FoundIn(hrefs, x);
      var k :| 0 <= k < |hrefs| && hrefs[k].Some? && x in MatchValues(hrefs[k].value);
      var h := hrefs[k].value;
      MatchesAreRaceIds(h);
      var vs := MatchValues(h);
      var j :| 0 <= j < |vs| && vs[j] == x;
    }
  }

  /** A link `…/race/<id>/` whose text before the id has no digit yields that id. */
  lemma RaceLinkHarvested(pre: string, id: string, post: string)
    requires forall t | 0 <= t < |pre| :: !IsDigit(pre[t])
    requires |id| == 12 && AllDigits(id)
    ensures DecimalValue(id) in MatchValues(pre + id + post)
  {
    var h := pre + id + post;
    RaceIdPatternSolid();
    forall t: nat | t < |pre| ensures MatchAt(RaceIdPattern, h, t).None? {
      RaceIdMatch(h, t);
      assert h[t] == pre[t];
    }
    assert forall t | |pre| <= t < |pre| + 12 :: h[t] == id[t - |pre|];
    ClassRunExactAtLeast(h, |pre|, 12);
    RaceIdMatch(h, |pre|);
    FirstMatchAt(RaceIdPattern, h, |pre|);
    assert h[|pre|..|pre| + 12] == id;
    FindAllEmpty(RaceIdPattern, h);
    assert FindAll(RaceIdPattern, h)[0] == id;
    assert MatchValues(h)[0] == DecimalValue(id);
  }

  lemma {:induction false} ClassRunExactAtLeast(s: string, i: nat, n: nat)
    requires i + n <= |s| && forall t | i <= t < i + n :: IsDigit(s[t])
    ensures ClassRun(Digit, s, i) >= n
    decreases n
  {
    if n > 0 {
      ClassRunExactAtLeast(s, i + 1, n - 1);
    }
  }

  /** `list(set(xs))`: each element once. Python leaves the order unspecified; this model keeps
      first occurrences, and the contract does not speak of the order. */
  method ListOfSet(xs: seq<int>) returns (ys: seq<int>)
    ensures forall x :: x in ys <==> x in xs
    ensures forall p, q | 0 <= p < q < |ys| :: ys[p] != ys[q]
  {
    ys := [];
    for i := 0 to |xs|
      invariant forall x :: x in ys <==> x in xs[..i]
      invariant forall p, q | 0 <= p < q < |ys| :: ys[p] != ys[q]
    {
      assert xs[..i + 1] == xs[..i] + [xs[i]];
      if xs[i] !in ys {
        ys := ys + [xs[i]];
      }
    }
    assert xs[..|xs|] == xs;
  }

  /** `RaceidScraper`: the page and the date string of the last `get_soup`. */
  class RaceidScraper {
    var soup: Option<ListPage>
    var raceId: Option<string>

    constructor()
      ensures soup == None && raceId == None
    {
      soup := None;
      raceId := None;
    }

    /** `get_raceID_list_from_date`, given the page fetched for the date: no race list gives no
        ids; otherwise each id found in a link, once. */
    method GetRaceIdListFromDate(date: Date, fetched: ListPage) returns (r: Result<seq<int>>)
      requires ValidDate(date)
      modifies this
      ensures soup == Some(fetched) && raceId == Some(BasicFormat(date))
      ensures fetched.raceList.None? ==> r == Success([])
      ensures fetched.raceList.Some? ==>
        var h := Harvested(fetched.raceList.value);
        (r.Failure? <==> h.Failure?) && (h.Failure? ==> r == h)
        && (r.Success? ==>
          (forall x :: x in r.value <==> x in h.value)
          && forall p, q | 0 <= p < q < |r.value| :: r.value[p] != r.value[q])
    {
      var key := PadZero(date.year, 4) + PadZero(date.month, 2) + PadZero(date.day, 2);
      soup := Some(fetched);
      raceId := Some(key);
      if fetched.raceList.None? {
        return Success([]);
      }
      var hrefs := fetched.raceList.value;
      var found: seq<int> := [];
      for k := 0 to |hrefs|
        invariant soup == Some(fetched) && raceId == Some(key)
        invariant Harvested(hrefs[..k]) == Success(found)
      {
        assert hrefs[..k + 1][..k] == hrefs[..k] && hrefs[..k + 1][k] == hrefs[k];
        if hrefs[k].None? {
          HarvestedStop(hrefs, k);
          return Failure(TypeError);
        }
        var values := ValuesOfHref(hrefs[k].value);
        found := found + values;
      }
      assert hrefs[..|hrefs|] == hrefs;
      var ids := ListOfSet(found);
      r := Success(ids);
    }
  }

  /** The inner loop: `int(s)` for each match of one href, in order. */
  method ValuesOfHref(h: string) returns (values: seq<int>)
    ensures values == MatchValues(h)
  {
    RaceIdPatternSolid();
    MatchesAreRaceIds(h);
    var ms := FindAll(RaceIdPattern, h);
    ghost var mv := MatchValues(h);
    assert |mv| == |ms|;
    values := [];
    for j := 0 to |ms|
      invariant values == mv[..j]
    {
      var v := ParseInt(ms[j]);
      assert mv[j] == DecimalValue(ms[j]) && v == Success(mv[j]);
      assert mv[..j + 1] == mv[..j] + [mv[j]];
      values := values + [v.value];
    }
    assert mv[..|ms|] == mv;
  }

  /** Once link `k` has no href after the links before it were read, the harvest fails. */
  lemma {:induction false} HarvestedStop(hrefs: seq<Option<string>>, k: nat)
    requires k < |hrefs| && Harvested(hrefs[..k]).Success? && hrefs[k].None?
    ensures Harvested(hrefs) == Failure(TypeError)
    decreases |hrefs|
  {
    if k < |hrefs| - 1 {
      var front := hrefs[..|hrefs| - 1];
      assert front[..k] == hrefs[..k] && front[k] == hrefs[k];
      HarvestedStop(front, k);
    } else {
      assert hrefs[..|hrefs| - 1] == hrefs[..k];
    }
  }

  /** The date the race-list page is fetched for is the eight digits YYYYMMDD. */
  lemma ListDateKey(date: Date)
    requires ValidDate(date)
    ensures var key := BasicFormat(date);
      |key| == 8 && AllDigits(key) && DecimalValue(key[..4]) == date.year
      && DecimalValue(key[4..6]) == date.month && DecimalValue(key[6..]) == date.day
  {
    BasicFormatRoundTrip(date);
  }
}
