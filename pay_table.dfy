/** The payout reshape of `get_pay_df`. The two payout tables arrive as rows of cell texts in
    which each line break has become the literal `br`; pandas pads the rows to the widest one
    (a padded cell is missing, and splitting it raises AttributeError). Every row becomes one
    record per `br`-piece of its horse-number column: the ticket type is piece 0 of column 0,
    the horse numbers, the payout and the popularity are piece i of their own columns. */
module PayTable {
  import opened Wrappers
  import opened Text

  /** One row of the resulting frame: race_id, 券種 (ticket), 馬番号 (numbers), 払戻 (payout),
      人気 (popularity). */
  datatype PayRecord = PayRecord(raceId: string, ticket: string, numbers: string, payout: string, popularity: string)

  const Br := "br"

  /** The width pandas gives the frame: the longest row. */
  function Width(rows: seq<seq<string>>): (w: nat)
    ensures forall k | 0 <= k < |rows| :: |rows[k]| <= w
    ensures rows == [] ==> w == 0
    ensures rows != [] ==> exists k | 0 <= k < |rows| :: |rows[k]| == w
  {
    if rows == [] then 0
    else
      var wf := Width(rows[..|rows| - 1]);
      assert forall k | 0 <= k < |rows| - 1 :: rows[k] == rows[..|rows| - 1][k];
      if |rows[|rows| - 1]| > wf then |rows[|rows| - 1]| else wf
  }

  /** `row[c].split('br')[k]` on a row of a frame `w` columns wide, with `k` = 0 for the ticket
      column and `k` = `i` otherwise: a column past the frame raises IndexError, a padded cell
      AttributeError, a missing piece IndexError. */
  function Field(row: seq<string>, w: nat, c: nat, i: nat): (r: Result<string>)
    ensures r.Success? <==> c < w && c < |row| && (if c == 0 then 0 else i) < |Split(row[c], Br)|
    ensures r.Failure? ==> (r.error == AttributeError <==> c < w && |row| <= c)
    ensures r.Failure? ==> r.error == IndexError || r.error == AttributeError
  {
    if c >= w then Failure(IndexError)
    else if c >= |row| then Failure(AttributeError)
    else
      var pieces := Split(row[c], Br);
      var k := if c == 0 then 0 else i;
      if k < |pieces| then Success(pieces[k]) else Failure(IndexError)
  }

  /** The record for piece `i`: the dictionary is filled column by column, so the first column
      that fails decides the error. */
  function Record(raceId: string, row: seq<string>, w: nat, i: nat): Result<PayRecord>
  {
    var ticket :- Field(row, w, 0, i);
    var numbers :- Field(row, w, 1, i);
    var payout :- Field(row, w, 2, i);
    var popularity :- Field(row, w, 3, i);
    Success(PayRecord(raceId, ticket, numbers, payout, popularity))
  }

  /** The records for pieces 0 .. n-1, in order, stopping at the first failure. */
  function Records(raceId: string, row: seq<string>, w: nat, n: nat): Result<seq<PayRecord>>
  {
    if n == 0 then Success([])
    else
      var front :- Records(raceId, row, w, n - 1);
      var last :- Record(raceId, row, w, n - 1);
      Success(front + [last])
  }

  /** One row: `range(len(row[1].split('br')))` is read first, then the records. */
  function RowRecords(raceId: string, row: seq<string>, w: nat): Result<seq<PayRecord>>
  {
    if w < 2 then Failure(IndexError)
    else if |row| < 2 then Failure(AttributeError)
    else Records(raceId, row, w, |Split(row[1], Br)|)
  }

  /** All rows in order, the first failing row deciding the error. */
  function PayRows(raceId: string, rows: seq<seq<string>>, w: nat): Result<seq<PayRecord>>
  {
    if rows == [] then Success([])
    else
      var front :- PayRows(raceId, rows[..|rows| - 1], w);
      var last :- RowRecords(raceId, rows[|rows| - 1], w);
      Success(front + last)
  }

  /** `get_pay_df` on a page: the rows of the first two payout tables, in order (IndexError when
      the page has fewer than two), reshaped over the frame's width. */
  function PayTableOf(raceId: string, tables: seq<seq<seq<string>>>): Result<seq<PayRecord>>
  {
    if |tables| < 2 then Failure(IndexError)
    else
      var rows := tables[0] + tables[1];
      PayRows(raceId, rows, Width(rows))
  }

  // ---------------------------------------------------------------- properties

  /** A record exists for piece `i` exactly when the frame has the four columns, the row fills
      them, and the payout and popularity columns have a piece `i`. */
  lemma RecordSucceeds(raceId: string, row: seq<string>, w: nat, i: nat)
    requires 2 <= |row| && i < |Split(row[1], Br)|
    ensures Record(raceId, row, w, i).Success? <==>
      4 <= w && 4 <= |row| && i < |Split(row[2], Br)| && i < |Split(row[3], Br)|
    ensures Record(raceId, row, w, i).Success? ==>
      Record(raceId, row, w, i).value == PayRecord(raceId, Split(row[0], Br)[0], Split(row[1], Br)[i],
        Split(row[2], Br)[i], Split(row[3], Br)[i])
  {
  }

  /** Records for the first `n` pieces succeed exactly when each piece's record does, and are
      then those records in piece order. */
  lemma {:induction false} RecordsSpec(raceId: string, row: seq<string>, w: nat, n: nat)
    ensures Records(raceId, row, w, n).Success? <==> forall i | 0 <= i < n :: Record(raceId, row, w, i).Success?
    ensures Records(raceId, row, w, n).Success? ==>
      var rs := Records(raceId, row, w, n).value;
      |rs| == n && forall i | 0 <= i < n :: rs[i] == Record(raceId, row, w, i).value
  {
    if n > 0 {
      RecordsSpec(raceId, row, w, n - 1);
    }
  }

  /** The record count of a row is the number of `br`-pieces of its horse-number column, and
      record `i` carries piece 0 of column 0 and piece `i` of the other three columns. */
  lemma RowRecordsShape(raceId: string, row: seq<string>, w: nat)
    requires RowRecords(raceId, row, w).Success?
    ensures 4 <= w && 4 <= |row|
    ensures var rs := RowRecords(raceId, row, w).value; var n := |Split(row[1], Br)|;
      |rs| == n && n <= |Split(row[2], Br)| && n <= |Split(row[3], Br)|
      && forall i | 0 <= i < n ::
        rs[i] == PayRecord(raceId, Split(row[0], Br)[0], Split(row[1], Br)[i], Split(row[2], Br)[i], Split(row[3], Br)[i])
  {
    var n := |Split(row[1], Br)|;
    RecordsSpec(raceId, row, w, n);
    RecordSucceeds(raceId, row, w, 0);
    forall i | 0 <= i < n
      ensures Record(raceId, row, w, i).value ==
        PayRecord(raceId, Split(row[0], Br)[0], Split(row[1], Br)[i], Split(row[2], Br)[i], Split(row[3], Br)[i])
    {
      RecordSucceeds(raceId, row, w, i);
    }
    RecordSucceeds(raceId, row, w, n - 1);
  }

  /** A row reshapes exactly when the frame has four columns, the row fills them, and the
      payout and popularity columns have at least as many pieces as the horse numbers; the only
      errors are AttributeError (a padded cell) and IndexError. */
  lemma {:induction false} RowRecordsSucceeds(raceId: string, row: seq<string>, w: nat)
    ensures RowRecords(raceId, row, w).Success? <==>
      4 <= w && 4 <= |row|
      && |Split(row[1], Br)| <= |Split(row[2], Br)| && |Split(row[1], Br)| <= |Split(row[3], Br)|
    ensures RowRecords(raceId, row, w).Failure? ==>
      RowRecords(raceId, row, w).error == IndexError || RowRecords(raceId, row, w).error == AttributeError
  {
    if 2 <= w && 2 <= |row| {
      var n := |Split(row[1], Br)|;
      RecordsSpec(raceId, row, w, n);
      RecordsError(raceId, row, w, n);
      if 4 <= w && 4 <= |row| && n <= |Split(row[2], Br)| && n <= |Split(row[3], Br)| {
        forall i | 0 <= i < n ensures Record(raceId, row, w, i).Success? {
          RecordSucceeds(raceId, row, w, i);
        }
      } else {
        RecordSucceeds(raceId, row, w, n - 1);
      }
    }
  }

  lemma {:induction false} RecordsError(raceId: string, row: seq<string>, w: nat, n: nat)
    ensures Records(raceId, row, w, n).Failure? ==>
      Records(raceId, row, w, n).error == IndexError || Records(raceId, row, w, n).error == AttributeError
  {
    if n > 0 {
      RecordsError(raceId, row, w, n - 1);
    }
  }

  /** Nothing of the horse-number cell is lost: joining the records' horse numbers with `br`
      gives the cell back, and so for the payout and the popularity cells when they have as many
      pieces. The ticket type is the text of column 0 before its first `br`. */
  lemma RowRecordsRoundTrip(raceId: string, row: seq<string>, w: nat)
    requires RowRecords(raceId, row, w).Success?
    ensures 4 <= |row|
    ensures var rs := RowRecords(raceId, row, w).value;
      Join(seq(|rs|, i requires 0 <= i < |rs| => rs[i].numbers), Br) == row[1]
      && (|Split(row[2], Br)| == |rs| ==> Join(seq(|rs|, i requires 0 <= i < |rs| => rs[i].payout), Br) == row[2])
      && (|Split(row[3], Br)| == |rs| ==> Join(seq(|rs|, i requires 0 <= i < |rs| => rs[i].popularity), Br) == row[3])
      && forall i | 0 <= i < |rs| :: TicketOf(row[0], rs[i].ticket)
  {
    RowRecordsShape(raceId, row, w);
    var rs := RowRecords(raceId, row, w).value;
    var numbers := seq(|rs|, i requires 0 <= i < |rs| => rs[i].numbers);
    var payouts := seq(|rs|, i requires 0 <= i < |rs| => rs[i].payout);
    var pops := seq(|rs|, i requires 0 <= i < |rs| => rs[i].popularity);
    assert numbers == Split(row[1], Br);
    JoinSplit(row[1], Br);
    if |Split(row[2], Br)| == |rs| {
      assert payouts == Split(row[2], Br);
      JoinSplit(row[2], Br);
    }
    if |Split(row[3], Br)| == |rs| {
      assert pops == Split(row[3], Br);
      JoinSplit(row[3], Br);
    }
    TicketOfFirstPiece(row[0]);
  }

  /** `t` is the text of `cell` before its first `br`. */
  predicate TicketOf(cell: string, t: string)
  {
    !Contains(t, Br) && (cell == t || (|t| + |Br| <= |cell| && cell[..|t| + |Br|] == t + Br))
  }

  lemma TicketOfFirstPiece(cell: string)
    ensures TicketOf(cell, Split(cell, Br)[0])
  {
    var p := Split(cell, Br);
    JoinSplit(cell, Br);
    SplitPiecesFree(cell, Br);
    assert p[0] in p;
    if |p| > 1 {
      assert cell == p[0] + Br + Join(p[1..], Br);
      assert cell[..|p[0]| + |Br|] == p[0] + Br;
    }
  }

  /** The reshape of two blocks of rows is the reshape of the first followed by the reshape of
      the second; a failure in the first block wins. */
  lemma {:induction false} PayRowsAppend(raceId: string, a: seq<seq<string>>, b: seq<seq<string>>, w: nat)
    ensures PayRows(raceId, a + b, w) ==
      match PayRows(raceId, a, w)
      case Failure(e) => Failure(e)
      case Success(ra) =>
        match PayRows(raceId, b, w)
        case Failure(e) => Failure(e)
        case Success(rb) => Success(ra + rb)
    decreases |b|
  {
    if b == [] {
      assert a + b == a;
      match PayRows(raceId, a, w)
      case Failure(e) =>
      case Success(ra) => assert ra + [] == ra;
    } else {
      var b' := b[..|b| - 1];
      assert (a + b)[..|a + b| - 1] == a + b';
      assert (a + b)[|a + b| - 1] == b[|b| - 1];
      PayRowsAppend(raceId, a, b', w);
      match PayRows(raceId, a, w)
      case Failure(e) =>
      case Success(ra) =>
        match PayRows(raceId, b', w)
        case Failure(e) =>
        case Success(rb) =>
          match RowRecords(raceId, b[|b| - 1], w)
          case Failure(e) =>
          case Success(rl) => assert ra + rb + rl == ra + (rb + rl);
    }
  }

  /** The reshape succeeds exactly when every row does. */
  lemma {:induction false} PayRowsSucceeds(raceId: string, rows: seq<seq<string>>, w: nat)
    ensures PayRows(raceId, rows, w).Success? <==>
      forall k | 0 <= k < |rows| :: RowRecords(raceId, rows[k], w).Success?
  {
    if rows != [] {
      var front := rows[..|rows| - 1];
      PayRowsSucceeds(raceId, front, w);
      assert forall k | 0 <= k < |front| :: front[k] == rows[k];
    }
  }

  /** When the reshape succeeds, the records of row `k` follow those of the rows before it, and
      together they begin the whole reshape. */
  lemma PayRowsRowOrder(raceId: string, rows: seq<seq<string>>, w: nat, k: nat)
    requires k < |rows| && PayRows(raceId, rows, w).Success?
    ensures PayRows(raceId, rows[..k], w).Success? && RowRecords(raceId, rows[k], w).Success?
    ensures PayRows(raceId, rows[..k + 1], w)
      == Success(PayRows(raceId, rows[..k], w).value + RowRecords(raceId, rows[k], w).value)
    ensures PayRows(raceId, rows[..k + 1], w).value <= PayRows(raceId, rows, w).value
  {
    var a, b := rows[..k + 1], rows[k + 1..];
    assert |a + b| == |rows| && forall i | 0 <= i < |rows| :: (a + b)[i] == rows[i];
    assert a + b == rows;
    PayRowsAppend(raceId, a, b, w);
    assert rows[..k + 1][..k] == rows[..k] && rows[..k + 1][k] == rows[k];
  }

  /** A single row's records. */
  lemma PayRowsSingle(raceId: string, row: seq<string>, w: nat)
    ensures PayRows(raceId, [row], w) == RowRecords(raceId, row, w)
  {
    assert [row][..0] == [];
    match RowRecords(raceId, row, w)
    case Failure(e) =>
    case Success(rs) => assert [] + rs == rs;
  }

  /** Fewer than two payout tables raise IndexError; two empty tables give no records. */
  lemma PayTableEdges(raceId: string, tables: seq<seq<seq<string>>>)
    ensures |tables| < 2 ==> PayTableOf(raceId, tables) == Failure(IndexError)
    ensures |tables| >= 2 && tables[0] == [] && tables[1] == [] ==> PayTableOf(raceId, tables) == Success([])
  {
    if |tables| >= 2 && tables[0] == [] && tables[1] == [] {
      assert tables[0] + tables[1] == [];
    }
  }

  /** `get_pay_df`'s loops: over the rows, over the pieces of column 1, over the four keys. */
  method ReshapeRows(raceId: string, rows: seq<seq<string>>, w: nat) returns (r: Result<seq<PayRecord>>)
    ensures r == PayRows(raceId, rows, w)
  {
    var out: seq<PayRecord> := [];
    for k := 0 to |rows|
      invariant PayRows(raceId, rows[..k], w) == Success(out)
    {
      var row := rows[k];
      assert rows[..k + 1][..k] == rows[..k] && rows[..k + 1][k] == row;
      if w < 2 || |row| < 2 {
        r := if w < 2 then Failure(IndexError) else Failure(AttributeError);
        PayRowsStop(raceId, rows, w, k);
        return;
      }
      var n := |Split(row[1], Br)|;
      var recs: seq<PayRecord> := [];
      for i := 0 to n
        invariant Records(raceId, row, w, i) == Success(recs)
      {
        var vals: seq<string> := [];
        for c := 0 to 4
          invariant |vals| == c && forall j | 0 <= j < c :: Field(row, w, j, i) == Success(vals[j])
        {
          var f := Field(row, w, c, i);
          if f.Failure? {
            assert Record(raceId, row, w, i) == Failure(f.error);
            assert Records(raceId, row, w, i + 1) == Failure(f.error);
            RecordsStop(raceId, row, w, i + 1, n);
            r := Failure(f.error);
            PayRowsStop(raceId, rows, w, k);
            return;
          }
          vals := vals + [f.value];
        }
        recs := recs + [PayRecord(raceId, vals[0], vals[1], vals[2], vals[3])];
      }
      out := out + recs;
    }
    assert rows[..|rows|] == rows;
    r := Success(out);
  }

  /** Once the records of the first `i` pieces fail, so do those of the first `n`. */
  lemma {:induction false} RecordsStop(raceId: string, row: seq<string>, w: nat, i: nat, n: nat)
    requires i <= n && Records(raceId, row, w, i).Failure?
    ensures Records(raceId, row, w, n) == Records(raceId, row, w, i)
    decreases n - i
  {
    if i < n {
      RecordsStop(raceId, row, w, i, n - 1);
    }
  }

  /** Once row `k` fails after the rows before it succeeded, the whole reshape fails the same way. */
  lemma PayRowsStop(raceId: string, rows: seq<seq<string>>, w: nat, k: nat)
    requires k < |rows| && PayRows(raceId, rows[..k], w).Success? && RowRecords(raceId, rows[k], w).Failure?
    ensures PayRows(raceId, rows, w) == Failure(RowRecords(raceId, rows[k], w).error)
  {
    assert rows[..k + 1][..k] == rows[..k] && rows[..k + 1][k] == rows[k];
    assert rows == rows[..k + 1] + rows[k + 1..];
    PayRowsAppend(raceId, rows[..k + 1], rows[k + 1..], w);
  }
}
