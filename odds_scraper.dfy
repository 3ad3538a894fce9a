/** `OddsScraper`: the reshaping of the netkeiba odds tables. Each table of a tab carries, in
    its header, the number of the horse it is about (`int(df.columns.values[0])`); its rows give
    the other horse and the odds. The odds are an opaque payload. */
module OddsScraper {
  import opened Wrappers
  import opened Text
  import opened RealTimeOdds

  /** A table read from a tab: its header cell and its rows. */
  datatype OddsTable = OddsTable(header: string, rows: seq<OddsRow>)

  /** A row of a trio frame: First, Second, Third and Odds. */
  datatype Row3 = Row3(first: int, second: int, third: int, odds: string)

  /** `[int(df.columns.values[0]) for df in dfs]`: ValueError at a header that is not an integer. */
  function Headers(dfs: seq<OddsTable>): (r: Result<seq<int>>)
    ensures r.Success? ==> |r.value| == |dfs|
    ensures r.Failure? ==> r.error == ValueError
  {
    if dfs == [] then Success([])
    else
      var front :- Headers(dfs[..|dfs| - 1]);
      var h :- ParseInt(dfs[|dfs| - 1].header);
      Success(front + [h])
  }

  /** The headers are read exactly when every header is an integer, and are those integers. */
  lemma {:induction false} HeadersSpec(dfs: seq<OddsTable>)
    ensures Headers(dfs).Success? <==> forall i | 0 <= i < |dfs| :: ParseInt(dfs[i].header).Success?
    ensures Headers(dfs).Success? ==> forall i | 0 <= i < |dfs| :: ParseInt(dfs[i].header) == Success(Headers(dfs).value[i])
  {
    if dfs != [] {
      var front := dfs[..|dfs| - 1];
      HeadersSpec(front);
      assert forall i | 0 <= i < |front| :: front[i] == dfs[i];
    }
  }

  // ---------------------------------------------------------------- pair tabs

  /** The tables labelled with their headers, concatenated in order. */
  function HeaderPairRows(dfs: seq<OddsTable>, firsts: seq<int>): seq<PairRow>
    requires |firsts| == |dfs|
  {
    if dfs == [] then []
    else
      var n := |dfs| - 1;
      HeaderPairRows(dfs[..n], firsts[..n]) + Labelled(dfs[n].rows, firsts[n])
  }

  /** `get_umaren_odds`, `get_wide_odds`, `get_umatan_odds`: the headers, then `pd.concat`
      (ValueError on no tables). */
  function PairTab(dfs: seq<OddsTable>): Result<seq<PairRow>>
  {
    var firsts :- Headers(dfs);
    if dfs == [] then Failure(ValueError) else Success(HeaderPairRows(dfs, firsts))
  }

  /** A row of a pair tab is a row of some table, labelled with that table's header. */
  lemma {:induction false} HeaderPairRowsSpec(dfs: seq<OddsTable>, firsts: seq<int>)
    requires |firsts| == |dfs|
    ensures forall x :: x in HeaderPairRows(dfs, firsts) <==>
      exists i | 0 <= i < |dfs| :: x.first == firsts[i] && OddsRow(x.second, x.odds) in dfs[i].rows
  {
    if dfs != [] {
      var n := |dfs| - 1;
      HeaderPairRowsSpec(dfs[..n], firsts[..n]);
      var lab := Labelled(dfs[n].rows, firsts[n]);
      forall x ensures x in lab <==> x.first == firsts[n] && OddsRow(x.second, x.odds) in dfs[n].rows {
        if x in lab {
          var k :| 0 <= k < |lab| && lab[k] == x;
          assert dfs[n].rows[k] == OddsRow(x.second, x.odds);
        }
        if x.first == firsts[n] && OddsRow(x.second, x.odds) in dfs[n].rows {
          var k :| 0 <= k < |dfs[n].rows| && dfs[n].rows[k] == OddsRow(x.second, x.odds);
          assert lab[k] == x;
        }
      }
      forall x ensures x in HeaderPairRows(dfs, firsts) <==>
        exists i | 0 <= i < |dfs| :: x.first == firsts[i] && OddsRow(x.second, x.odds) in dfs[i].rows
      {
        if exists i | 0 <= i < |dfs| :: x.first == firsts[i] && OddsRow(x.second, x.odds) in dfs[i].rows {
          var i :| 0 <= i < |dfs| && x.first == firsts[i] && OddsRow(x.second, x.odds) in dfs[i].rows;
          if i < n {
            assert dfs[..n][i] == dfs[i] && firsts[..n][i] == firsts[i];
          }
        }
        if x in HeaderPairRows(dfs, firsts) && x !in lab {
          var i :| 0 <= i < n && x.first == firsts[..n][i] && OddsRow(x.second, x.odds) in dfs[..n][i].rows;
          assert dfs[..n][i] == dfs[i] && firsts[..n][i] == firsts[i];
        }
      }
    }
  }

  /** The pair-tab loop. */
  method PairTable(dfs: seq<OddsTable>) returns (r: Result<seq<PairRow>>)
    ensures r == PairTab(dfs)
  {
    var h := ReadHeaders(dfs);
    if h.Failure? {
      return Failure(h.error);
    }
    if dfs == [] {
      return Failure(ValueError);
    }
    var firsts := h.value;
    var rows: seq<PairRow> := [];
    for i := 0 to |dfs|
      invariant rows == HeaderPairRows(dfs[..i], firsts[..i])
    {
      assert dfs[..i + 1][..i] == dfs[..i] && firsts[..i + 1][..i] == firsts[..i];
      rows := rows + Labelled(dfs[i].rows, firsts[i]);
    }
    assert dfs[..|dfs|] == dfs && firsts[..|dfs|] == firsts;
    r := Success(rows);
  }

  /** The header comprehension as a loop. */
  method ReadHeaders(dfs: seq<OddsTable>) returns (r: Result<seq<int>>)
    ensures r == Headers(dfs)
  {
    var hs: seq<int> := [];
    for i := 0 to |dfs|
      invariant Headers(dfs[..i]) == Success(hs)
    {
      assert dfs[..i + 1][..i] == dfs[..i] && dfs[..i + 1][i] == dfs[i];
      var h := ParseInt(dfs[i].header);
      if h.Failure? {
        HeadersStop(dfs, i);
        return Failure(ValueError);
      }
      hs := hs + [h.value];
    }
    assert dfs[..|dfs|] == dfs;
    r := Success(hs);
  }

  /** A header that is not an integer, after the ones before it were read, fails the list. */
  lemma {:induction false} HeadersStop(dfs: seq<OddsTable>, i: nat)
    requires i < |dfs| && Headers(dfs[..i]).Success? && ParseInt(dfs[i].header).Failure?
    ensures Headers(dfs) == Failure(ValueError)
    decreases |dfs|
  {
    if i < |dfs| - 1 {
      var front := dfs[..|dfs| - 1];
      assert front[..i] == dfs[..i] && front[i] == dfs[i];
      HeadersStop(front, i);
    } else {
      assert dfs[..|dfs| - 1] == dfs[..i];
    }
  }

  // ---------------------------------------------------------------- trio tabs

  /** The rows of one table of axis horse `uma`: the header is Second, the rows Third and Odds. */
  function TrioLabelled(uma: int, second: int, rows: seq<OddsRow>): seq<Row3>
  {
    seq(|rows|, k requires 0 <= k < |rows| => Row3(uma, second, rows[k].horse, rows[k].odds))
  }

  /** The labelled tables of one axis horse, concatenated. */
  function AxisConcat(uma: int, dfs: seq<OddsTable>, seconds: seq<int>): seq<Row3>
    requires |seconds| == |dfs|
  {
    if dfs == [] then []
    else
      var n := |dfs| - 1;
      AxisConcat(uma, dfs[..n], seconds[..n]) + TrioLabelled(uma, seconds[n], dfs[n].rows)
  }

  /** One axis horse: the headers, then `pd.concat` (ValueError on no tables). */
  function AxisRows(uma: int, dfs: seq<OddsTable>): Result<seq<Row3>>
  {
    var seconds :- Headers(dfs);
    if dfs == [] then Failure(ValueError) else Success(AxisConcat(uma, dfs, seconds))
  }

  /** The axis horses in order, axis `k` (from 0) labelled `k + 1`. */
  function TrioRows(dfsList: seq<seq<OddsTable>>): Result<seq<Row3>>
  {
    if dfsList == [] then Success([])
    else
      var n := |dfsList|;
      var front :- TrioRows(dfsList[..n - 1]);
      var last :- AxisRows(n, dfsList[n - 1]);
      Success(front + last)
  }

  /** `get_rentan_odds`: the outer `pd.concat` raises ValueError on no axis horse. */
  function TrioFrame(dfsList: seq<seq<OddsTable>>): Result<seq<Row3>>
  {
    if dfsList == [] then Failure(ValueError) else TrioRows(dfsList)
  }

  /** A row of one axis horse: its First is the axis, its Second the header of the table that
      lists its Third and Odds. */
  lemma {:induction false} AxisConcatSpec(uma: int, dfs: seq<OddsTable>, seconds: seq<int>)
    requires |seconds| == |dfs|
    ensures forall x :: x in AxisConcat(uma, dfs, seconds) <==>
      x.first == uma && exists i | 0 <= i < |dfs| :: x.second == seconds[i] && OddsRow(x.third, x.odds) in dfs[i].rows
  {
    if dfs != [] {
      var n := |dfs| - 1;
      AxisConcatSpec(uma, dfs[..n], seconds[..n]);
      var lab := TrioLabelled(uma, seconds[n], dfs[n].rows);
      forall x ensures x in lab <==> x.first == uma && x.second == seconds[n] && OddsRow(x.third, x.odds) in dfs[n].rows {
        if x in lab {
          var k :| 0 <= k < |lab| && lab[k] == x;
          assert dfs[n].rows[k] == OddsRow(x.third, x.odds);
        }
        if x.first == uma && x.second == seconds[n] && OddsRow(x.third, x.odds) in dfs[n].rows {
          var k :| 0 <= k < |dfs[n].rows| && dfs[n].rows[k] == OddsRow(x.third, x.odds);
          assert lab[k] == x;
        }
      }
      forall x ensures x in AxisConcat(uma, dfs, seconds) <==>
        x.first == uma && exists i | 0 <= i < |dfs| :: x.second == seconds[i] && OddsRow(x.third, x.odds) in dfs[i].rows
      {
        if x.first == uma && exists i | 0 <= i < |dfs| :: x.second == seconds[i] && OddsRow(x.third, x.odds) in dfs[i].rows {
          var i :| 0 <= i < |dfs| && x.second == seconds[i] && OddsRow(x.third, x.odds) in dfs[i].rows;
          if i < n {
            assert dfs[..n][i] == dfs[i] && seconds[..n][i] == seconds[i];
          }
        }
        if x in AxisConcat(uma, dfs, seconds) && x !in lab {
          var i :| 0 <= i < n && x.second == seconds[..n][i] && OddsRow(x.third, x.odds) in dfs[..n][i].rows;
          assert dfs[..n][i] == dfs[i] && seconds[..n][i] == seconds[i];
        }
      }
    }
  }

  /** The trio rows exist exactly when every axis horse's tables do, and then hold, for each
      First, exactly the rows of that axis horse. */
  lemma {:induction false} TrioRowsSpec(dfsList: seq<seq<OddsTable>>)
    ensures TrioRows(dfsList).Success? <==> forall k | 0 <= k < |dfsList| :: AxisRows(k + 1, dfsList[k]).Success?
    ensures TrioRows(dfsList).Success? ==> forall x :: x in TrioRows(dfsList).value <==>
      1 <= x.first <= |dfsList| && x in AxisRows(x.first, dfsList[x.first - 1]).value
  {
    if dfsList != [] {
      var n := |dfsList|;
      var front := dfsList[..n - 1];
      TrioRowsSpec(front);
      assert forall k | 0 <= k < n - 1 :: front[k] == dfsList[k];
      if TrioRows(dfsList).Success? {
        var last := AxisRows(n, dfsList[n - 1]).value;
        forall x | x in last ensures x.first == n {
          AxisConcatSpec(n, dfsList[n - 1], Headers(dfsList[n - 1]).value);
        }
      }
    }
  }

  /** The labelling loop of one axis horse. */
  method LabelAxis(uma: int, dfs: seq<OddsTable>) returns (r: Result<seq<Row3>>)
    ensures r == AxisRows(uma, dfs)
  {
    var h := ReadHeaders(dfs);
    if h.Failure? {
      return Failure(h.error);
    }
    if dfs == [] {
      return Failure(ValueError);
    }
    var seconds := h.value;
    var rows: seq<Row3> := [];
    for i := 0 to |dfs|
      invariant rows == AxisConcat(uma, dfs[..i], seconds[..i])
    {
      assert dfs[..i + 1][..i] == dfs[..i] && seconds[..i + 1][..i] == seconds[..i];
      rows := rows + TrioLabelled(uma, seconds[i], dfs[i].rows);
    }
    assert dfs[..|dfs|] == dfs && seconds[..|dfs|] == seconds;
    r := Success(rows);
  }

  /** The 整形 loop of `get_renpuku_odds` and `get_rentan_odds`. */
  method TrioTable(dfsList: seq<seq<OddsTable>>) returns (r: Result<seq<Row3>>)
    ensures r == TrioFrame(dfsList)
  {
    if dfsList == [] {
      return Failure(ValueError);
    }
    var rows: seq<Row3> := [];
    for k := 0 to |dfsList|
      invariant TrioRows(dfsList[..k]) == Success(rows)
    {
      assert dfsList[..k + 1][..k] == dfsList[..k] && dfsList[..k + 1][k] == dfsList[k];
      var axis := LabelAxis(k + 1, dfsList[k]);
      if axis.Failure? {
        TrioRowsStop(dfsList, k);
        return Failure(axis.error);
      }
      rows := rows + axis.value;
    }
    assert dfsList[..|dfsList|] == dfsList;
    r := Success(rows);
  }

  /** An axis horse that fails, after the ones before it were read, fails the frame. */
  lemma {:induction false} TrioRowsStop(dfsList: seq<seq<OddsTable>>, k: nat)
    requires k < |dfsList| && TrioRows(dfsList[..k]).Success? && AxisRows(k + 1, dfsList[k]).Failure?
    ensures TrioRows(dfsList) == Failure(AxisRows(k + 1, dfsList[k]).error)
    decreases |dfsList|
  {
    if k < |dfsList| - 1 {
      var front := dfsList[..|dfsList| - 1];
      assert front[..k] == dfsList[..k] && front[k] == dfsList[k];
      TrioRowsStop(front, k);
    } else {
      assert dfsList[..|dfsList| - 1] == dfsList[..k];
    }
  }

  // ---------------------------------------------------------------- 3連複 normalisation

  /** A row whose three horse numbers are in ascending order. */
  predicate Ascending(x: Row3)
  {
    x.first <= x.second <= x.third
  }

  /** `y` has the horse numbers of `x` in some order, and the same odds. */
  predicate Reorders(x: Row3, y: Row3)
  {
    var a, b, c := x.first, x.second, x.third;
    y.odds == x.odds
    && ((y.first, y.second, y.third) == (a, b, c) || (y.first, y.second, y.third) == (a, c, b)
      || (y.first, y.second, y.third) == (b, a, c) || (y.first, y.second, y.third) == (b, c, a)
      || (y.first, y.second, y.third) == (c, a, b) || (y.first, y.second, y.third) == (c, b, a))
  }

  /** `values.sort()` on one row of the first three columns. */
  function Sort3(x: Row3): (y: Row3)
    ensures Ascending(y) && Reorders(x, y)
  {
    var a, b, c := x.first, x.second, x.third;
    if a <= b then
      if b <= c then x
      else if a <= c then Row3(a, c, b, x.odds)
      else Row3(c, a, b, x.odds)
    else
      if a <= c then Row3(b, a, c, x.odds)
      else if b <= c then Row3(b, c, a, x.odds)
      else Row3(c, b, a, x.odds)
  }

  /** The three horse numbers of a row. */
  function Horses(x: Row3): multiset<int>
  {
    multiset{x.first, x.second, x.third}
  }

  /** Sorting keeps the horse numbers, as a multiset. */
  lemma Sort3Horses(x: Row3)
    ensures Horses(Sort3(x)) == Horses(x)
  {
  }

  /** Sorting is determined by the horses: two orders of the same horses with the same odds sort
      to the same row, and an ascending row is left as it is. */
  lemma Sort3Canonical(x: Row3, y: Row3)
    requires Reorders(x, y)
    ensures Sort3(x) == Sort3(y)
  {
  }

  lemma Sort3Ascending(x: Row3)
    requires Ascending(x)
    ensures Sort3(x) == x
  {
  }

  /** Every row sorted. */
  function SortRows(rows: seq<Row3>): (r: seq<Row3>)
    ensures |r| == |rows| && forall k | 0 <= k < |rows| :: r[k] == Sort3(rows[k])
  {
    seq(|rows|, k requires 0 <= k < |rows| => Sort3(rows[k]))
  }

  /** `drop_duplicates()`: each row at its first occurrence, in order. */
  function DropDuplicates(rows: seq<Row3>): seq<Row3>
  {
    if rows == [] then []
    else
      var front := DropDuplicates(rows[..|rows| - 1]);
      var last := rows[|rows| - 1];
      if last in front then front else front + [last]
  }

  /** No two rows are equal. */
  predicate Distinct(rows: seq<Row3>)
  {
    forall i, j | 0 <= i < j < |rows| :: rows[i] != rows[j]
  }

  /** `drop_duplicates` keeps every row once and adds none. */
  lemma {:induction false} DropDuplicatesSpec(rows: seq<Row3>)
    ensures forall x :: x in DropDuplicates(rows) <==> x in rows
    ensures Distinct(DropDuplicates(rows))
  {
    if rows != [] {
      var front := rows[..|rows| - 1];
      DropDuplicatesSpec(front);
      assert rows == front + [rows[|rows| - 1]];
    }
  }

  /** A list without duplicates is left as it is. */
  lemma {:induction false} DropDuplicatesDistinct(rows: seq<Row3>)
    requires Distinct(rows)
    ensures DropDuplicates(rows) == rows
  {
    if rows != [] {
      var front := rows[..|rows| - 1];
      assert Distinct(front);
      DropDuplicatesDistinct(front);
      assert rows[|rows| - 1] !in front;
      assert rows == front + [rows[|rows| - 1]];
    }
  }

  /** `get_renpuku_odds`: the trio frame with each row's horses sorted and duplicate rows dropped. */
  function RenpukuFrame(dfsList: seq<seq<OddsTable>>): Result<seq<Row3>>
  {
    var rows :- TrioFrame(dfsList);
    Success(DropDuplicates(SortRows(rows)))
  }

  /** 3連複's rows are ascending and distinct, and are exactly the sorted rows of the trio frame. */
  lemma RenpukuSpec(dfsList: seq<seq<OddsTable>>)
    requires TrioFrame(dfsList).Success?
    ensures var out := RenpukuFrame(dfsList).value;
      Distinct(out)
      && (forall x | x in out :: Ascending(x))
      && forall x :: x in out <==> exists y | y in TrioFrame(dfsList).value :: x == Sort3(y)
  {
    var rows := TrioFrame(dfsList).value;
    var sorted := SortRows(rows);
    DropDuplicatesSpec(sorted);
    forall x ensures x in sorted <==> exists y | y in rows :: x == Sort3(y) {
      if x in sorted {
        var k :| 0 <= k < |sorted| && sorted[k] == x;
        assert rows[k] in rows;
      }
      if exists y | y in rows :: x == Sort3(y) {
        var y :| y in rows && x == Sort3(y);
        var k :| 0 <= k < |rows| && rows[k] == y;
        assert sorted[k] == x;
      }
    }
  }

  /** Two trio rows with the same horses and odds (one axis's 1-2-3, another's 2-1-3) end up as
      one row of 3連複. */
  lemma RenpukuMerges(dfsList: seq<seq<OddsTable>>, y1: Row3, y2: Row3)
    requires TrioFrame(dfsList).Success? && y1 in TrioFrame(dfsList).value && y2 in TrioFrame(dfsList).value
    requires Reorders(y1, y2)
    ensures Sort3(y1) in RenpukuFrame(dfsList).value && Sort3(y1) == Sort3(y2)
  {
    RenpukuSpec(dfsList);
    Sort3Canonical(y1, y2);
  }

  /** `get_renpuku_odds`: the 整形 loop, then `values.sort()` and `drop_duplicates()`. */
  method RenpukuOdds(dfsList: seq<seq<OddsTable>>) returns (r: Result<seq<Row3>>)
    ensures r == RenpukuFrame(dfsList)
  {
    var t := TrioTable(dfsList);
    if t.Failure? {
      return Failure(t.error);
    }
    var rows := t.value;
    var sorted: seq<Row3> := [];
    for k := 0 to |rows|
      invariant sorted == SortRows(rows[..k])
    {
      sorted := sorted + [Sort3(rows[k])];
    }
    assert rows[..|rows|] == rows;
    var out: seq<Row3> := [];
    for k := 0 to |sorted|
      invariant out == DropDuplicates(sorted[..k])
    {
      assert sorted[..k + 1][..k] == sorted[..k] && sorted[..k + 1][k] == sorted[k];
      if sorted[k] !in out {
        out := out + [sorted[k]];
      }
    }
    assert sorted[..|sorted|] == sorted;
    r := Success(out);
  }

  /** `get_rentan_odds`: the 整形 loop alone. */
  method RentanOdds(dfsList: seq<seq<OddsTable>>) returns (r: Result<seq<Row3>>)
    ensures r == TrioFrame(dfsList)
  {
    r := TrioTable(dfsList);
  }
}
