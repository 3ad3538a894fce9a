/** The `/race_result` handler: a racecourse name and three two-digit fields become a netkeiba
    race id, the result page of that race is fetched, and every row of its result table becomes
    a record of eleven named values. The fetch is I/O: its status and the parts of the page the
    handler reads are given. HTTP errors are `HttpError(status)`. */
module KeibaRouter {
  import opened Wrappers
  import opened Text
  import opened RaceId

  /** The request body. */
  datatype RaceRequest = RaceRequest(racecourse: string, count: string, raceDate: string, raceNum: string)

  /** An `img` tag: its `alt` attribute, if it has one. */
  datatype Img = Img(alt: Option<string>)

  /** A `td` of the result table: its text and its first `img`, if any. */
  datatype Cell = Cell(text: string, img: Option<Img>)

  /** The `tab_ResultSelect_1_con` container: its `tbody` (absent gives None) as rows of cells. */
  datatype Container = Container(tbody: Option<seq<seq<Cell>>>)

  /** The fetched result page: the HTTP status and the container, if the page has one. */
  datatype Response = Response(status: int, container: Option<Container>)

  /** A JSON value of a result record: a string, or null for an `img` without `alt`. */
  type Value = Option<string>

  /** A result record, as an association list from key to value. */
  type Record = seq<(string, Value)>

  /** `row_keys`. */
  const RowKeys: seq<string> := ["rank", "waku", "horse_num", "name", "age", "weight", "jockey", "time", "sa", "ninki", "odds"]

  const ResultUrlPrefix: string := "https://race.netkeiba.com/race/result.html?race_id="
  const ResultUrlSuffix: string := "&rf=race_list"

  /** No key is listed twice, so `dict(zip(...))` keeps every pair. */
  lemma RowKeysDistinct()
    ensures |RowKeys| == 11
    ensures forall i, j | 0 <= i < j < |RowKeys| :: RowKeys[i] != RowKeys[j]
  {
  }

  /** `get_text`: the cell's text without newlines when that is not empty, else the `alt` of the
      cell's first `img` (null when it has none), else the empty string. A tag is always
      truthy, so the `element and` test never decides. */
  function GetText(c: Cell): Value
  {
    var t := Replace(c.text, "\n", "");
    if t != "" then Some(t)
    else
      match c.img
      case Some(i) => i.alt
      case None => Some("")
  }

  /** The text wins exactly when the cell has a character other than a newline; then the value
      is the text without its newlines. */
  lemma GetTextSpec(c: Cell)
    ensures (exists t | 0 <= t < |c.text| :: c.text[t] != '\n') ==>
      GetText(c) == Some(RemoveChar(c.text, '\n')) && '\n' !in GetText(c).value && GetText(c).value != ""
    ensures (forall t | 0 <= t < |c.text| :: c.text[t] == '\n') ==>
      GetText(c) == match c.img case Some(i) => i.alt case None => Some("")
  {
    ReplaceCharWithEmpty(c.text, '\n');
    RemoveCharEmpty(c.text, '\n');
  }

  /** Python's `zip`: pairs in order, as many as the shorter list has. */
  function Zip<A, B>(a: seq<A>, b: seq<B>): (r: seq<(A, B)>)
    ensures |r| == if |a| < |b| then |a| else |b|
    ensures forall k | 0 <= k < |r| :: r[k] == (a[k], b[k])
  {
    if a == [] || b == [] then [] else [(a[0], b[0])] + Zip(a[1..], b[1..])
  }

  /** `list(map(get_text, row))`. */
  function Texts(row: seq<Cell>): (r: seq<Value>)
    ensures |r| == |row| && forall k | 0 <= k < |row| :: r[k] == GetText(row[k])
  {
    if row == [] then [] else [GetText(row[0])] + Texts(row[1..])
  }

  /** One record: `dict(zip(row_keys, map(get_text, row)))`. */
  function RowRecord(row: seq<Cell>): Record
  {
    Zip(RowKeys, Texts(row))
  }

  /** A record pairs the keys with the cells positionally and is cut at the shorter of the two. */
  lemma RowRecordSpec(row: seq<Cell>)
    ensures var d := RowRecord(row);
      |d| == (if |row| < 11 then |row| else 11)
      && forall k | 0 <= k < |d| :: d[k] == (RowKeys[k], GetText(row[k]))
  {
  }

  /** The race id of the request: HTTP 400 for a racecourse without a code, before anything else. */
  function RequestRaceId(req: RaceRequest): Result<string>
  {
    if req.racecourse !in RacecourseCodes then Failure(HttpError(400))
    else Success(ResultRaceId(RacecourseCodes[req.racecourse], req.count, req.raceDate, req.raceNum))
  }

  /** `load_url`. */
  function ResultUrl(req: RaceRequest): Result<string>
  {
    var id :- RequestRaceId(req);
    Success(ResultUrlPrefix + id + ResultUrlSuffix)
  }

  /** For a known racecourse and two-digit fields, the URL carries a twelve-character race id right
      after its prefix, and that id decodes back to the request's racecourse and fields. */
  lemma ResultUrlDecodes(req: RaceRequest)
    requires req.racecourse in RacecourseCodes
    requires |req.count| == 2 && AllDigits(req.count) && |req.raceDate| == 2 && AllDigits(req.raceDate)
    requires |req.raceNum| == 2 && AllDigits(req.raceNum)
    ensures ResultUrl(req).Success?
    ensures var url := ResultUrl(req).value;
      var id := url[|ResultUrlPrefix|..|url| - |ResultUrlSuffix|];
      |url| == |ResultUrlPrefix| + 12 + |ResultUrlSuffix|
      && url[..|ResultUrlPrefix|] == ResultUrlPrefix && url[|url| - |ResultUrlSuffix|..] == ResultUrlSuffix
      && DecodeRaceId(id) == Success(RaceKey(req.racecourse, DecimalValue(req.count),
        DecimalValue(req.raceDate), DecimalValue(req.raceNum)))
  {
    var id := ResultRaceId(RacecourseCodes[req.racecourse], req.count, req.raceDate, req.raceNum);
    DecodeResultRaceId(req.racecourse, req.count, req.raceDate, req.raceNum);
    var url := ResultUrlPrefix + id + ResultUrlSuffix;
    assert url[|ResultUrlPrefix|..|url| - |ResultUrlSuffix|] == id;
  }

  /** `get_race_results`: 400 for an unknown racecourse, 500 when the page cannot be fetched, 404
      without the result container, AttributeError without a `tbody`; otherwise one record per
      row of the table, in order. */
  function RaceResults(req: RaceRequest, resp: Response): Result<seq<Record>>
  {
    var url :- ResultUrl(req);
    if resp.status != 200 then Failure(HttpError(500))
    else
      match resp.container
      case None => Failure(HttpError(404))
      case Some(c) =>
        match c.tbody
        case None => Failure(AttributeError)
        case Some(rows) => Success(seq(|rows|, i requires 0 <= i < |rows| => RowRecord(rows[i])))
  }

  /** The handler's outcome: which error in which case, and on success one record per table row
      whose values are the `get_text` of the row's cells under the keys, in order. */
  lemma RaceResultsSpec(req: RaceRequest, resp: Response)
    ensures req.racecourse !in RacecourseCodes ==> RaceResults(req, resp) == Failure(HttpError(400))
    ensures req.racecourse in RacecourseCodes && resp.status != 200 ==> RaceResults(req, resp) == Failure(HttpError(500))
    ensures req.racecourse in RacecourseCodes && resp.status == 200 && resp.container.None? ==>
      RaceResults(req, resp) == Failure(HttpError(404))
    ensures req.racecourse in RacecourseCodes && resp.status == 200 && resp.container.Some? && resp.container.value.tbody.None? ==>
      RaceResults(req, resp) == Failure(AttributeError)
    ensures RaceResults(req, resp).Success? <==>
      req.racecourse in RacecourseCodes && resp.status == 200 && resp.container.Some? && resp.container.value.tbody.Some?
    ensures RaceResults(req, resp).Success? ==>
      var rows := resp.container.value.tbody.value;
      var out := RaceResults(req, resp).value;
      |out| == |rows| && forall i | 0 <= i < |rows| ::
        |out[i]| == (if |rows[i]| < 11 then |rows[i]| else 11)
        && forall k | 0 <= k < |out[i]| :: out[i][k] == (RowKeys[k], GetText(rows[i][k]))
  {
    if RaceResults(req, resp).Success? {
      var rows := resp.container.value.tbody.value;
      forall i | 0 <= i < |rows| ensures |RowRecord(rows[i])| == (if |rows[i]| < 11 then |rows[i]| else 11) {
        RowRecordSpec(rows[i]);
      }
    }
  }
}
