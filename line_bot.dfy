/** The LINE message handler: a message `racecourse,count,race_date,race_num` is sent to the
    `/race_result` API, and the result records come back as one reply line per horse. The API call
    and the reply are I/O: the API's status and records are given, and the model says which request
    is made (if any) and which reply text is sent. */
module LineBot {
  import opened Wrappers
  import opened Text
  import opened KeibaRouter

  const FormatErrorText: string := "入力形式が間違っています。例: 京都,05,06,11"
  const FailureText: string := "結果が取得できませんでした。"

  /** `racecourse, count, race_date, race_num = user_message.split(",")`: ValueError unless there
      are exactly four parts. */
  function ParseCommand(msg: string): Result<RaceRequest>
  {
    var parts := Split(msg, ",");
    if |parts| != 4 then Failure(ValueError) else Success(RaceRequest(parts[0], parts[1], parts[2], parts[3]))
  }

  /** A message is a command exactly when it has three commas; the fields have none and, joined
      with commas, give the message back. */
  lemma ParseCommandSpec(msg: string)
    ensures ParseCommand(msg).Success? <==> CountChar(msg, ',') == 3
    ensures ParseCommand(msg).Success? ==>
      var q := ParseCommand(msg).value;
      Join([q.racecourse, q.count, q.raceDate, q.raceNum], ",") == msg
      && ',' !in q.racecourse && ',' !in q.count && ',' !in q.raceDate && ',' !in q.raceNum
  {
    SplitCountChar(msg, ',');
    JoinSplit(msg, ",");
    SplitPiecesFree(msg, ",");
    var parts := Split(msg, ",");
    if |parts| == 4 {
      assert parts == [parts[0], parts[1], parts[2], parts[3]];
      assert parts[0] in parts && parts[1] in parts && parts[2] in parts && parts[3] in parts;
      forall q | q in parts ensures ',' !in q {
        ContainsChar(q, ',');
      }
    }
  }

  /** Four fields without commas, written as a command, are read back unchanged. */
  lemma ParseCommandOfFields(racecourse: string, count: string, raceDate: string, raceNum: string)
    requires ',' !in racecourse && ',' !in count && ',' !in raceDate && ',' !in raceNum
    ensures ParseCommand(Join([racecourse, count, raceDate, raceNum], ",")) ==
      Success(RaceRequest(racecourse, count, raceDate, raceNum))
  {
    SplitJoinChar([racecourse, count, raceDate, raceNum], ',');
  }

  /** The JSON body of the API request. */
  function RequestBody(q: RaceRequest): (body: seq<(string, string)>)
    ensures |body| == 4
    ensures body[0] == ("racecourse", q.racecourse) && body[1] == ("count", q.count)
    ensures body[2] == ("race_date", q.raceDate) && body[3] == ("race_num", q.raceNum)
  {
    [("racecourse", q.racecourse), ("count", q.count), ("race_date", q.raceDate), ("race_num", q.raceNum)]
  }

  /** `r[key]` on a result record: the value of the first pair with that key, KeyError when none. */
  function Lookup(d: Record, key: string): (r: Result<Value>)
    ensures r.Success? <==> exists k | 0 <= k < |d| :: d[k].0 == key
    ensures r.Failure? ==> r.error == KeyError
  {
    if d == [] then Failure(KeyError)
    else if d[0].0 == key then Success(d[0].1)
    else
      var v := Lookup(d[1..], key);
      assert forall k | 1 <= k < |d| :: d[k] == d[1..][k - 1];
      v
  }

  /** The value under the key at position `k`, when no earlier pair has that key. */
  lemma {:induction false} LookupAt(d: Record, k: nat)
    requires k < |d| && forall j | 0 <= j < k :: d[j].0 != d[k].0
    ensures Lookup(d, d[k].0) == Success(d[k].1)
  {
    if k > 0 {
      LookupAt(d[1..], k - 1);
    }
  }

  /** A JSON value as an f-string shows it: a string as itself, null as `None`. */
  function Render(v: Value): string
  {
    match v
    case Some(s) => s
    case None => "None"
  }

  /** One reply line: `f"{rank}: {name} (人気: {ninki}, オッズ: {odds})"`, KeyError for a
      missing key. */
  function FormatRow(d: Record): Result<string>
  {
    var rank :- Lookup(d, "rank");
    var name :- Lookup(d, "name");
    var ninki :- Lookup(d, "ninki");
    var odds :- Lookup(d, "odds");
    Success(Render(rank) + ": " + Render(name) + " (人気: " + Render(ninki) + ", オッズ: " + Render(odds) + ")")
  }

  /** The reply lines of all records, in order. */
  function FormatRows(ds: seq<Record>): Result<seq<string>>
  {
    MapResult(ds, FormatRow)
  }

  /** The lines exist exactly when every record has the four keys, one per record, in order. */
  lemma FormatRowsSpec(ds: seq<Record>)
    ensures FormatRows(ds).Success? <==> forall i | 0 <= i < |ds| :: FormatRow(ds[i]).Success?
    ensures FormatRows(ds).Success? ==>
      |FormatRows(ds).value| == |ds| && forall i | 0 <= i < |ds| :: FormatRows(ds).value[i] == FormatRow(ds[i]).value
    ensures FormatRows(ds).Failure? ==> FormatRows(ds).error == KeyError
  {
    MapResultSpec(ds, FormatRow);
  }

  /** A record of the result table with all eleven cells gives the line of its rank, name,
      popularity and odds cells (columns 0, 3, 9 and 10). */
  lemma FormatResultRow(row: seq<Cell>)
    requires |row| >= 11
    ensures FormatRow(RowRecord(row)) == Success(Render(GetText(row[0])) + ": " + Render(GetText(row[3]))
      + " (人気: " + Render(GetText(row[9])) + ", オッズ: " + Render(GetText(row[10])) + ")")
  {
    var d := RowRecord(row);
    RowRecordSpec(row);
    RowKeysDistinct();
    assert d[0] == ("rank", GetText(row[0])) && d[3] == ("name", GetText(row[3]));
    assert d[9] == ("ninki", GetText(row[9])) && d[10] == ("odds", GetText(row[10]));
    LookupAt(d, 0);
    LookupAt(d, 3);
    LookupAt(d, 9);
    LookupAt(d, 10);
    assert Lookup(d, "rank") == Success(GetText(row[0])) && Lookup(d, "name") == Success(GetText(row[3]));
    assert Lookup(d, "ninki") == Success(GetText(row[9])) && Lookup(d, "odds") == Success(GetText(row[10]));
  }

  /** What `handle_message` does: the request it makes (none for a malformed message) and the
      reply it sends. */
  datatype Outcome = Outcome(request: Option<RaceRequest>, reply: Result<string>)

  /** The reply to the API's answer: on 200 the lines joined by newlines, else the failure text. */
  function ReplyText(status: int, ds: seq<Record>): Result<string>
  {
    if status == 200 then
      var lines :- FormatRows(ds);
      Success(Join(lines, "\n"))
    else Success(FailureText)
  }

  /** `handle_message`, the API answering with `status` and the records `ds`. */
  function HandleMessage(msg: string, status: int, ds: seq<Record>): Outcome
  {
    match ParseCommand(msg)
    case Failure(_) => Outcome(None, Success(FormatErrorText))
    case Success(q) => Outcome(Some(q), ReplyText(status, ds))
  }

  /** A malformed message is answered with the format error and makes no request; a command
      makes its request and is answered by the API's status: the failure text unless it is 200,
      else one line per record, in order, or the KeyError of a record missing a field. */
  lemma HandleMessageSpec(msg: string, status: int, ds: seq<Record>)
    ensures CountChar(msg, ',') != 3 ==> HandleMessage(msg, status, ds) == Outcome(None, Success(FormatErrorText))
    ensures CountChar(msg, ',') == 3 <==> ParseCommand(msg).Success?
    ensures ParseCommand(msg).Success? ==> HandleMessage(msg, status, ds).request == Some(ParseCommand(msg).value)
    ensures CountChar(msg, ',') == 3 && status != 200 ==> HandleMessage(msg, status, ds).reply == Success(FailureText)
    ensures CountChar(msg, ',') == 3 && status == 200 && FormatRows(ds).Success? ==>
      HandleMessage(msg, status, ds).reply == Success(Join(FormatRows(ds).value, "\n"))
    ensures CountChar(msg, ',') == 3 && status == 200 && FormatRows(ds).Failure? ==>
      HandleMessage(msg, status, ds).reply == Failure(KeyError)
  {
    ParseCommandSpec(msg);
    FormatRowsSpec(ds);
  }

  /** When no reply line contains a newline, splitting the reply on newlines gives the lines back. */
  lemma ReplyLines(lines: seq<string>)
    requires |lines| >= 1 && forall q | q in lines :: '\n' !in q
    ensures Split(Join(lines, "\n"), "\n") == lines
  {
    SplitJoinChar(lines, '\n');
  }
}
