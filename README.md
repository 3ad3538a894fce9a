# grade-dream in Dafny

A Dafny model of the data-handling core of grade-dream, a horse-racing scraper with a small web
API and a LINE chat bot. The scrapers read pages of netkeiba and of the JRA. The API and the bot
re-expose what the scrapers read. The model keeps what the code does to the data once a page has
been read, and proves what that code promises:

- **Race ids** (`RaceId`): the twelve-character netkeiba race id and its two racecourse tables.
  The REST handler builds an id from a racecourse name and three two-digit fields. The scrapers
  take an id apart again by fixed slices. Decoding an id built by the handler gives back its
  fields.
- **Regular expressions** (`Regex`): the part of Python's `re.findall` the scrapers use. A pattern
  is an alternation of branches of greedy character-class repetitions, matched in Python's
  backtracking order. `__defaultfind` is built on it.
- **Calendar dates** (`Dates`): `datetime.date`, its basic (YYYYMMDD) and extended (YYYY-MM-DD)
  renderings from section 4.1.2.2 of ISO 8601:2004, and `strptime(text, '%Y年%m月%d日')`.
- **`DatabaseScraper`**:
  - the race header's free-text fields (`__parse_racename`, `__parse1`, `__parse2`);
  - `get_race_info`;
  - the payout reshape of `get_pay_df` (`PayTable`);
  - the id column of the result table (`__get_id_list_from_col`);
  - `get_soup` as a class whose state is the loaded page and race id.
- **`RaceidScraper`**: the race ids one day's race list links to.
- **`RealTimeOddsScraper`**: the JRA navigation state machine (`status` 0 to 3 and the index-base
  flag), the race-list entries, the race-id lookup label, and the labelling of the pair-odds
  tables.
- **`OddsScraper`**: the table labelling of 馬連, ワイド, 馬単, 3連複 and 3連単, with 3連複's sort
  and de-duplication.
- **REST handlers and LINE bot**: `/race_result` (`KeibaRouter`), `/date_result` (`RaceCalendar`)
  and the LINE message handler (`LineBot`).

Python exceptions are values of `Wrappers.Error`, and an HTTP error response is `HttpError(status)`.
Fetching, browsing and HTML parsing are I/O. What they return is a parameter of the operation that
reads it:

- the cell texts of a table;
- the `href`s of the anchors;
- the texts of the race blocks;
- an HTTP status.

The source's `assert` statements on its own state become `requires`:

- `status == 3` for the odds getters;
- `self.soup is not None`;
- `len(race_id) == 12`.

The `assert` inside `select_race` is different when it is reached from `select_race_from_race_id`:
there the caller does not choose the race number, so it is an `AssertionError` outcome.

The file `back/keiba_scr.py` and its later revision `back/src/keiba_scr.py` have the same parse
helpers, `get_pay_df`, `__get_id_list_from_col` and `get_raceID_list_from_date`. They are modelled
once, and the table cites both revisions where the lines differ.

Where the code and its description disagree, the model follows the code:

- The race id is described as twelve digits. The handler concatenates its fields without checking
  them, so `RaceId.ResultRaceId` accepts any fields. The decoding properties assume two-digit
  fields.
- A race id whose racecourse slice is not a number raises ValueError in `int()` before any
  racecourse lookup. Only a numeric slice outside 1..10 raises KeyError.
- `RealTimeOddsScraper` labels its pair tables `First = index + 1`. `OddsScraper` takes `First`
  from each table's own header (`int(df.columns.values[0])`), which raises ValueError on a header
  that is not a number.

## Model

| member | source | states |
|---|---|---|
| RaceId.DecodeRaceId | back/keiba_scr.py:158-164 | The id decodes exactly when its four slices are integers and `int(id[4:6])` names a racecourse. The fields are then the racecourse name and the three slices' values. Otherwise ValueError for a slice that is not an integer (the racecourse slice first), KeyError for an unknown racecourse number. Once the racecourse is known, the only error is ValueError. The same slices are used in back/src/keiba_scr.py:155-161. |
| RaceId.CourseTablesAgree | back/src/routers/keiba.py:17-21 | Every racecourse code is two digits. Its value names, in `RACECOURSE_DICT` (back/keiba_scr.py:61-63), the racecourse it is listed for. Every racecourse of `RACECOURSE_DICT` has a code. |
| RaceId.CodeEntry | back/src/routers/keiba.py:17-21 | A racecourse's code is two digits, and `RACECOURSE_DICT` maps the code's value back to that racecourse. |
| RaceId.DictEntry | back/keiba_scr.py:61-63 | Every racecourse number of `RACECOURSE_DICT` is the value of that racecourse's code. |
| RaceId.CodesInjective | back/src/routers/keiba.py:17-21 | Distinct racecourses have distinct codes. |
| RaceId.DecodeResultRaceId | back/src/routers/keiba.py:30 | For a known racecourse and three two-digit fields, the id `"2024"+code+count+race_date+race_num` has twelve characters. It decodes to that racecourse and the fields' decimal values. |
| RaceId.DecodeEncode | back/keiba_scr.py:158-164 | A race key with a known racecourse and fields below 100, written with zero-padded fields, decodes to itself. |
| RaceId.JraLabel | back/keiba_scr.py:679-681 | Building the lookup label `'{meeting}回{course}{day}日'` can fail only with ValueError or KeyError. |
| RaceId.JraLabelOfDecoded | back/keiba_scr.py:679-681 | Wherever the id decodes, the label is built from the decoded racecourse, meeting and day. |
| RaceId.IntToString | back/keiba_scr.py:681 | `str(n)` is non-empty and `int()` reads it back as `n`. It is canonical: digits without a leading zero except for 0 itself, and a `-` before such digits for a negative `n`. |
| Text.ParseInt | back/keiba_scr.py:160-163 | `int(s)` succeeds exactly on an optional sign followed by ASCII digits. It then gives the digits' value, negated after a `-`, and otherwise raises ValueError. |
| Text.PadZeroSpec | back/keiba_scr.py:310 | `f'{n:0w}'` keeps the value and is at least `w` wide, and exactly `w` wide when `n < 10^w`. |
| Text.ParseIntPadZero | back/keiba_scr.py:310 | `int(f'{n:0w}') == n`. |
| Text.JoinSplit | back/src/routers/line.py:33 | Joining the pieces of `s.split(sep)` with `sep` gives `s` back. |
| Text.SplitPiecesFree | back/src/routers/line.py:33 | No piece of `s.split(sep)` contains `sep`. |
| Text.SplitCountChar | back/src/routers/line.py:33 | Splitting on one character gives one more piece than the string has of that character. |
| Text.SplitJoinChar | back/src/routers/line.py:51 | Splitting a join on a one-character separator gives the parts back when no part contains the character. |
| Text.ReplaceCharWithEmpty | back/src/routers/keiba.py:43 | `s.replace(c, '')` removes exactly the occurrences of `c`. |
| Text.RemoveChar | back/src/routers/keiba.py:43 | The string without `c` has no `c`, is no longer than the original, and has only its characters. |
| Text.ReplaceLeading | back/src/routers/race_calendar.py:49 | Replacing a leading `target` of a string that has no other `target` puts `repl` in its place. |
| Regex.DefaultFind | back/keiba_scr.py:141-145 | `__defaultfind` returns the default when the pattern matches nowhere. The same helper is in back/src/keiba_scr.py:138-142. |
| Regex.DefaultFindAt | back/keiba_scr.py:141-145 | Otherwise it returns the match at the leftmost position where the pattern matches. |
| Regex.FirstMatch | back/keiba_scr.py:142-144 | `re.findall(...)[0]` exists exactly when the pattern matches somewhere. |
| Regex.FirstMatchAt | back/keiba_scr.py:142-144 | The first element of `re.findall` is the match at the leftmost matching position. |
| Regex.FindAllEmpty | back/keiba_scr.py:142-143 | `re.findall` finds nothing exactly when the pattern matches at no position. |
| Regex.FindAllSound | back/keiba_scr.py:142 | Every element of `re.findall` is the text of a match of the pattern. |
| Regex.SpansLeftmost | back/keiba_scr.py:142 | The first match found starts at the leftmost matching position, and there is none when no position matches. |
| Regex.SpansOrdered | back/keiba_scr.py:142 | The matches of `re.findall` do not overlap and come left to right. |
| Regex.ClassFind | back/keiba_scr.py:168-169 | `__defaultfind` of a one-character class is the first character of that class, or the default. |
| Regex.RunFind | back/keiba_scr.py:172-173 | `__defaultfind` of `[cls]{1,max}` is the run, up to `max` characters, starting at the first character of the class, or the default. |
| Regex.RunFirstMatch | back/keiba_scr.py:120 | The first match of `[cls]{1,max}` is the run starting at the first character of the class, and there is none without such a character. |
| Dates.Strptime | back/keiba_scr.py:181 | `strptime(w, '%Y年%m月%d日')` yields only dates that exist, and fails only with ValueError. |
| Dates.StrptimeFields | back/keiba_scr.py:181 | On a four-digit year and one- or two-digit month and day joined by 年, 月 and 日, `strptime` yields the date they spell exactly when that date exists. |
| Dates.StrptimeJapanese | back/keiba_scr.py:181 | `strptime` reads back the date a race page writes. |
| Dates.DigitField | back/keiba_scr.py:181 | On the `\d{1,2}` fields of the date match, `%m` and `%d` take one or two digits, as many as there are, followed by the literal. |
| Dates.BasicFormatRoundTrip | back/keiba_scr.py:310 | `f'{y:04}{m:02}{d:02}'` is eight digits whose slices [0:4], [4:6] and [6:8] read back as the year, month and day. |
| Dates.ExtendedIsBasicWithDashes | back/keiba_scr.py:182 | `strftime('%Y-%m-%d')` is the basic format with a dash after the year and after the month. |
| DatabaseScraper.GradeOfFirstMark | back/keiba_scr.py:147-156 | The grade is G1, G2 or G3 according to the digit of the first `(G\d)` mark. The checks run in that order. Also back/src/keiba_scr.py:144-153. |
| DatabaseScraper.GradeWithoutMark | back/keiba_scr.py:147-156 | Without a `(G\d)` mark the grade is `'-'`. |
| DatabaseScraper.GradeOfMark | back/keiba_scr.py:150-155 | A `(G\d)` mark contains '1', '2' or '3' exactly when its digit is that digit. |
| DatabaseScraper.GradeMatchAt | back/keiba_scr.py:148 | `\(G\d\)` matches, four characters long, exactly where `(G`, a digit and `)` start. |
| DatabaseScraper.LengthMatchAt | back/keiba_scr.py:170-171 | `\d{3,4}m` matches where three or four digits are followed by `m`. Backtracking from four digits to three never helps. |
| DatabaseScraper.CourseLengthOfMatch | back/keiba_scr.py:170-171 | The course length is the value of the first `\d{3,4}m` match with its `m` dropped. |
| DatabaseScraper.CourseLengthAbsent | back/keiba_scr.py:170-171 | Without a `\d{3,4}m` match the course length is -1, from the default `'-1 '` with its last character dropped. |
| DatabaseScraper.Parse1Succeeds | back/keiba_scr.py:166-175 | `__parse1` never raises: what it hands to `int()` is always a number. |
| DatabaseScraper.Parse1Fields | back/keiba_scr.py:166-175 | Race kind and direction are the first character of their class, or `''` and `'無'`. Weather and going are the run, up to two characters, starting at the first character of their class, or `''`. Also back/src/keiba_scr.py:163-172. |
| DatabaseScraper.Parse1Values | back/keiba_scr.py:166-175 | `__parse1` succeeds, and its kind, direction, weather and going are `__defaultfind` of their patterns with the source's defaults. |
| DatabaseScraper.Parse2 | back/keiba_scr.py:177-191 | `__parse2` can fail only with ValueError, raised by `strptime` on a matched but impossible date. |
| DatabaseScraper.Parse2OfDate | back/keiba_scr.py:177-185 | A header starting with a date as the page writes it has 日付 in the extended format, and 年, 月 and 日 as integers. Also back/src/keiba_scr.py:174-182. |
| DatabaseScraper.Parse2WithoutDate | back/keiba_scr.py:177-185 | Without a `\d{4}年\d{1,2}月\d{1,2}日` match, 年, 月 and 日 stay `''` and there is no 日付 key. |
| DatabaseScraper.DateMatchOfFields | back/keiba_scr.py:179 | The date pattern matches a whole `Y年M月D日` with a four-digit year and one- or two-digit month and day, whatever follows it. |
| DatabaseScraper.RaceInfoOf | back/keiba_scr.py:123-139 | `int(race_id)` failing gives ValueError. A missing race name or intro block gives AttributeError. On success the info carries `int(race_id)` and the decoded race id. |
| DatabaseScraper.RaceInfoOfPage | back/keiba_scr.py:123-139 | On a page with the race name and two intro paragraphs, the first with a span, the info of a decodable id is complete exactly when `__parse2` accepts the second paragraph. |
| DatabaseScraper.RaceInfoOfResultId | back/keiba_scr.py:123-139 | For an id the REST handler builds, on such a page, the info is complete exactly when `__parse2` accepts the second paragraph. It then carries the id's number, the racecourse, the fields' values, and the grade, course and class fields of the page. |
| DatabaseScraper.RaceInfoErrors | back/keiba_scr.py:123-139 | `get_race_info` raises only ValueError, KeyError, AttributeError or IndexError. |
| DatabaseScraper.IdOfHref | back/keiba_scr.py:120 | A linked cell yields the first maximal run of digits of its href, which is non-empty. An href without a digit raises IndexError. |
| DatabaseScraper.IdOfRowSpec | back/keiba_scr.py:116-120 | A row's id exists exactly when the row has the column and the cell's link, if any, has an href with a digit. It is `''` without a link. |
| DatabaseScraper.IdsOfRowsSpec | back/keiba_scr.py:111-121 | The id list exists exactly when every data row's id does. It then has one entry per row, in order. Also back/src/keiba_scr.py:108-118. |
| DatabaseScraper.IdsOfRowsStop | back/keiba_scr.py:115-120 | The first row that fails decides the error of the whole list. |
| DatabaseScraper.DatabaseScraper.constructor | back/keiba_scr.py:38-39 | No page and no race id are loaded. |
| DatabaseScraper.DatabaseScraper.GetSoup | back/keiba_scr.py:41-52 | `get_soup` stores the fetched page and the race id and returns the page. Also back/src/keiba_scr.py:39-50. |
| DatabaseScraper.DatabaseScraper.Load | back/keiba_scr.py:195-197 | With an id the page is fetched and stored. Without one the loaded page stays. |
| DatabaseScraper.DatabaseScraper.GetRaceInfo | back/keiba_scr.py:123-139 | `get_race_info` loads the page as above and returns the race info of the stored id and page. |
| DatabaseScraper.DatabaseScraper.GetPayDf | back/keiba_scr.py:193-214 | `get_pay_df` loads the page and returns the reshape of the rows of its first two payout tables. Also back/src/keiba_scr.py:190-211. |
| DatabaseScraper.DatabaseScraper.IdListFromCol | back/keiba_scr.py:111-121 | The loop computes the id list of the stored page's result table. |
| DatabaseScraper.DatabaseScraper.OwnerIdList | back/keiba_scr.py:101-103 | The owner ids are the ids of column 19. |
| PayTable.Width | back/keiba_scr.py:202 | The frame is as wide as its longest row: no row is wider, some row has exactly that width, and no rows give width 0. |
| PayTable.Field | back/keiba_scr.py:209-212 | `row[c].split('br')[k]` succeeds exactly when the column is in the frame and filled and has the piece. A padded cell gives AttributeError and a missing piece IndexError. |
| PayTable.RecordSucceeds | back/keiba_scr.py:206-213 | A record exists for piece `i` exactly when the frame has four columns, the row fills them, and the payout and popularity cells have a piece `i`. |
| PayTable.RecordsSpec | back/keiba_scr.py:206-213 | The records of the first `n` pieces exist exactly when each piece's record does, and are those records in piece order. |
| PayTable.RowRecordsShape | back/keiba_scr.py:205-213 | A row gives as many records as its horse-number cell has `br`-pieces. Record `i` has piece 0 of column 0 as 券種, and piece `i` of columns 1, 2 and 3 as 馬番号, 払戻 and 人気. Also back/src/keiba_scr.py:202-210. |
| PayTable.RowRecordsSucceeds | back/keiba_scr.py:205-213 | A row reshapes exactly when the frame has four columns, the row fills them, and the payout and popularity cells have at least as many pieces as the horse numbers. The only errors are AttributeError and IndexError. |
| PayTable.RowRecordsRoundTrip | back/keiba_scr.py:205-213 | Joining a row's horse numbers with `br` gives the horse-number cell back, and likewise for payout and popularity when they have as many pieces. The ticket type is the text of column 0 before its first `br`. |
| PayTable.PayRowsAppend | back/keiba_scr.py:199 | Reshaping two blocks of rows gives the first block's records followed by the second's. A failure in the first block wins. |
| PayTable.PayRowsSucceeds | back/keiba_scr.py:205-213 | The reshape succeeds exactly when every row does. |
| PayTable.PayRowsRowOrder | back/keiba_scr.py:205-213 | When the reshape succeeds, the records of row `k` follow those of the rows before it, and together they begin the whole result. |
| PayTable.PayTableEdges | back/keiba_scr.py:198-199 | Fewer than two payout tables raise IndexError. Two empty tables give no records. |
| PayTable.ReshapeRows | back/keiba_scr.py:205-213 | The three nested loops compute the reshape. |
| PayTable.RecordsStop | back/keiba_scr.py:206-213 | Once a piece fails, the row fails with that error. |
| PayTable.PayRowsStop | back/keiba_scr.py:205-213 | Once a row fails after the rows before it succeeded, the reshape fails with that row's error. |
| RaceidScraper.RaceIdMatch | back/keiba_scr.py:319 | `[0-9]{12}` matches exactly where twelve digits start, and spans them. |
| RaceidScraper.MatchesAreRaceIds | back/keiba_scr.py:319-320 | Every match in an href is a twelve-digit string. |
| RaceidScraper.HarvestedSucceeds | back/keiba_scr.py:316-320 | The harvest succeeds exactly when every link has an href. A link without one makes `re.findall` raise TypeError. |
| RaceidScraper.HarvestedSpec | back/keiba_scr.py:316-320 | A harvest holds exactly the values of the twelve-digit runs found in the hrefs. |
| RaceidScraper.HarvestedBounded | back/keiba_scr.py:319-320 | Every harvested id is below 10^12. |
| RaceidScraper.RaceLinkHarvested | back/keiba_scr.py:319-320 | A link whose text has no digit before a twelve-digit id yields that id. |
| RaceidScraper.HarvestedStop | back/keiba_scr.py:318-319 | A link without an href, reached after the links before it were read, fails the harvest with TypeError. |
| RaceidScraper.ListOfSet | back/keiba_scr.py:321 | `list(set(xs))` holds each element of `xs` once and nothing else. |
| RaceidScraper.ValuesOfHref | back/keiba_scr.py:319-320 | The inner loop gives `int(s)` for each match of the href, in order. |
| RaceidScraper.ListDateKey | back/keiba_scr.py:310 | The date key is eight digits whose slices give back the year, month and day. |
| RaceidScraper.RaceidScraper.constructor | back/keiba_scr.py:288-289 | No page and no date are loaded. |
| RaceidScraper.RaceidScraper.GetRaceIdListFromDate | back/keiba_scr.py:291-321 | The page is fetched for `f'{y:04}{m:02}{d:02}'`. Without a race list the result is empty. Otherwise it is TypeError for a link without an href, or each harvested id once. Also back/src/keiba_scr.py:264-294. |
| RealTimeOdds.CleanSpec | back/keiba_scr.py:664 | `replace('\n', '').replace(' ', '')` removes exactly the newlines and spaces. |
| RealTimeOdds.EntriesSpec | back/keiba_scr.py:657-667 | The race list exists exactly when the week has a header for every block, and is IndexError otherwise. Entry (block `i`, div `j`) is `date_info[i]` followed by the div's cleaned text, and every div has its entry. |
| RealTimeOdds.EntriesStop | back/keiba_scr.py:659-661 | A block without a header, after the blocks before it were read, fails the list with IndexError. |
| RealTimeOdds.FirstHitFrom | back/keiba_scr.py:684-689 | The search finds the first div, in page order from the given position, whose cleaned text contains the label. It finds nothing when no such div exists. |
| RealTimeOdds.FirstHitSpec | back/keiba_scr.py:684-689 | Over the whole page, nothing is found exactly when no div contains the label. A found div contains it, and no earlier one does. |
| RealTimeOdds.LabelOfRaceId | back/keiba_scr.py:680-681 | For an id that decodes, the label is `'{meeting}回{course}{day}日'` of the decoded fields. |
| RealTimeOdds.PairRowsSpec | back/keiba_scr.py:518-522 | A row is in the pair frame exactly when it is a row of table `i` labelled `First = i + 1`. |
| RealTimeOdds.PairRowsCount | back/keiba_scr.py:518-522 | The pair frame has as many rows as the tables together. |
| RealTimeOdds.WithoutSelfPairsSpec | back/keiba_scr.py:549-550 | The filter keeps exactly the rows whose First and Second differ. |
| RealTimeOdds.UmatanRows | back/keiba_scr.py:543-550 | 馬単's rows are exactly the table rows, labelled with their table's number, whose two horses differ. |
| RealTimeOdds.LabelTables | back/keiba_scr.py:517-522 | The labelling loop computes the pair frame, which is ValueError for no tables. |
| RealTimeOdds.RealTimeOddsScraper.constructor | back/keiba_scr.py:490-494 | The index base is set. Without `select_manually`, `status` is 0 and nothing is read. With it, the racecourse list is shown (`status` 1), its headers are kept and its entries are stored when they can be read. |
| RealTimeOdds.RealTimeOddsScraper.ChangeIndexbase | back/keiba_scr.py:498-503 | The flag flips and nothing else changes, so every later tab index moves by one. |
| RealTimeOdds.RealTimeOddsScraper.VisitRaceListPage | back/keiba_scr.py:629-638 | From any state, `status` becomes 1 and nothing else changes. |
| RealTimeOdds.RealTimeOddsScraper.GetDateInfo | back/keiba_scr.py:640-648 | On status 1 it reads the week's headers as the page shows them. |
| RealTimeOdds.RealTimeOddsScraper.GetRaceList | back/keiba_scr.py:650-667 | On status 1 the loops compute the race list of the stored headers. Before headers have been read, the first block raises AttributeError, and a page without blocks gives `[]`. |
| RealTimeOdds.RealTimeOddsScraper.GetRacecourseList | back/keiba_scr.py:594-601 | From any state it shows the list, stores the headers and, when the entries exist, stores them. |
| RealTimeOdds.RealTimeOddsScraper.SelectRacecourse | back/keiba_scr.py:616-627 | On status 1 with a list, a Python index in range picks the entry, counting from the end when negative. The list is then cleared and `status` becomes 2. An index out of range raises IndexError and changes nothing. |
| RealTimeOdds.RealTimeOddsScraper.SelectRace | back/keiba_scr.py:603-614 | On status 2 with 0 < n < 13, race button `n - 1` is clicked and `status` becomes 3. Without that button IndexError is raised and `status` stays 2. |
| RealTimeOdds.RealTimeOddsScraper.SelectRaceFromRaceId | back/keiba_scr.py:669-694 | The label is built from the id, and the first div containing it is opened, with `status` 2. The race number is then selected, and `status` becomes 3. The outcomes: a label error, no div (status 1), ValueError, AssertionError or IndexError at the race number (status 2), or success. |
| RealTimeOdds.RealTimeOddsScraper.GetTanshoOdds | back/keiba_scr.py:505-511 | On status 3, tab 0 is read, and the result is the first table. A tab without tables gives ValueError, which is what `pd.read_html` raises at back/keiba_scr.py:585. |
| RealTimeOdds.RealTimeOddsScraper.GetUmarenOdds | back/keiba_scr.py:513-524 | On status 3, tab `1 + index_base` is read, and the result is the pair frame of the tables. |
| RealTimeOdds.RealTimeOddsScraper.GetWideOdds | back/keiba_scr.py:526-537 | On status 3, tab `2 + index_base` is read, and the result is the pair frame of the tables. |
| RealTimeOdds.RealTimeOddsScraper.GetUmatanOdds | back/keiba_scr.py:539-551 | On status 3, tab `3 + index_base` is read. The pair frame is returned without self-pairs, or ValueError for no tables. |
| OddsScraper.Headers | back/keiba_scr.py:762 | The header list has one entry per table, or is ValueError. |
| OddsScraper.HeadersSpec | back/keiba_scr.py:762 | The headers are read exactly when every header is an integer, and are those integers. |
| OddsScraper.HeadersStop | back/keiba_scr.py:762 | A header that is not an integer, reached after the ones before it were read, fails the list with ValueError. |
| OddsScraper.HeaderPairRowsSpec | back/keiba_scr.py:763-768 | A row of a pair tab is exactly a row of some table labelled with that table's header. |
| OddsScraper.PairTable | back/keiba_scr.py:755-769 | The loop of `get_umaren_odds` computes the pair tab. The same loop is in `get_wide_odds` (771-785) and `get_umatan_odds` (787-801). |
| OddsScraper.ReadHeaders | back/keiba_scr.py:762 | The loop computes the header list. |
| OddsScraper.AxisConcatSpec | back/keiba_scr.py:826-834 | A row of one axis horse has the axis as First and the header of its table as Second, with that table's Third and Odds. |
| OddsScraper.TrioRowsSpec | back/keiba_scr.py:823-835 | The trio frame exists exactly when every axis horse's tables do. For each First it then holds exactly that axis horse's rows. |
| OddsScraper.TrioRowsStop | back/keiba_scr.py:824-834 | An axis horse that fails, after the ones before it were read, fails the frame. |
| OddsScraper.LabelAxis | back/keiba_scr.py:826-834 | The inner loop computes one axis horse's rows. |
| OddsScraper.TrioTable | back/keiba_scr.py:823-835 | The 整形 loop computes the trio frame, which is ValueError for no axis horse. |
| OddsScraper.Sort3 | back/keiba_scr.py:837-839 | Sorting a row makes it ascending, reorders its three horses and keeps its odds. |
| OddsScraper.Sort3Horses | back/keiba_scr.py:837-839 | Sorting keeps the multiset of horse numbers. |
| OddsScraper.Sort3Canonical | back/keiba_scr.py:837-839 | Two orders of the same horses with the same odds sort to the same row. |
| OddsScraper.Sort3Ascending | back/keiba_scr.py:837-839 | An ascending row is left as it is. |
| OddsScraper.SortRows | back/keiba_scr.py:837-839 | Every row is sorted in place of itself. |
| OddsScraper.DropDuplicatesSpec | back/keiba_scr.py:840 | `drop_duplicates` keeps every row, adds none, and leaves no two rows equal. |
| OddsScraper.DropDuplicatesDistinct | back/keiba_scr.py:840 | A frame without duplicates is left as it is. |
| OddsScraper.RenpukuSpec | back/keiba_scr.py:836-840 | 3連複's rows are ascending and distinct, and are exactly the sorted rows of the trio frame. |
| OddsScraper.RenpukuMerges | back/keiba_scr.py:836-840 | Two trio rows with the same horses and odds become one row of 3連複. |
| OddsScraper.RenpukuOdds | back/keiba_scr.py:823-841 | The loops compute the trio frame, sorted and without duplicates. |
| OddsScraper.RentanOdds | back/keiba_scr.py:863-876 | The loops of `get_rentan_odds` compute the trio frame. |
| KeibaRouter.RowKeysDistinct | back/src/routers/keiba.py:50 | There are eleven keys and no two are equal, so `dict(zip(...))` keeps every pair. |
| KeibaRouter.GetTextSpec | back/src/routers/keiba.py:42-48 | A cell with a character other than a newline gives its text without newlines. Otherwise it gives its first img's `alt`, null without one, or `''` without an img. |
| KeibaRouter.Zip | back/src/routers/keiba.py:52 | `zip` pairs elements positionally and stops at the shorter list. |
| KeibaRouter.Texts | back/src/routers/keiba.py:52 | `map(get_text, row)` has one value per cell, in order. |
| KeibaRouter.RowRecordSpec | back/src/routers/keiba.py:50-52 | A record pairs the keys with the cells positionally and is cut at the shorter of the two. |
| KeibaRouter.ResultUrlDecodes | back/src/routers/keiba.py:30 | For a known racecourse and two-digit fields, the URL holds a twelve-character id between its fixed prefix and suffix, and the id decodes to the request's fields. |
| KeibaRouter.RaceResultsSpec | back/src/routers/keiba.py:25-53 | An unknown racecourse gives 400, a failed fetch 500 and a missing container 404. A missing `tbody` gives AttributeError. Success happens exactly without these, with one record per table row in order, each pairing the keys with the row's `get_text` values. |
| RaceCalendar.DatePartsSpec | back/src/routers/race_calendar.py:27 | The date unpacks exactly when it has two dashes. The parts have no dash and, joined with dashes, give the date back. |
| RaceCalendar.DatePartsOfIso | back/src/routers/race_calendar.py:27 | `Y-M-D` with dash-free fields unpacks into those fields. |
| RaceCalendar.FirstAnchorFrom | back/src/routers/race_calendar.py:40-44 | The anchor search fails only with TypeError, and a found anchor is in range and has an href. |
| RaceCalendar.FirstAnchorFromSpec | back/src/routers/race_calendar.py:40-44 | The anchor found is the first whose href contains the day's link, and every anchor before it has an href. Nothing is found exactly when every anchor has an href without the link. |
| RaceCalendar.FirstAnchorSpec | back/src/routers/race_calendar.py:40-44 | The same, over the whole page. |
| RaceCalendar.ListUrlOfRelative | back/src/routers/race_calendar.py:49 | A relative list link becomes the mobile list page with the same query and `&jyo_cd=` plus the code. An unknown racecourse leaves `None` there. |
| RaceCalendar.RaceCodeOfMyRace | back/src/routers/race_calendar.py:65 | Removing `myrace_` from `myrace_` plus a code gives the code. |
| RaceCalendar.BlockCode | back/src/routers/race_calendar.py:61-67 | The race-block search fails only with TypeError or KeyError. |
| RaceCalendar.BlockCodeSpec | back/src/routers/race_calendar.py:61-67 | When no block's span reads `race_num + "R"`, the handler returns nothing. Otherwise the first such block decides: TypeError without a `MyRaceCheck` span, KeyError without its id, else the id without `myrace_`. |
| RaceCalendar.KaisaiDateSpec | back/src/routers/race_calendar.py:22-67 | The handler's outcomes, in the order it meets them. A date without two dashes gives ValueError, a failed calendar fetch 500, an anchor without an href before the day's anchor TypeError, and no day's anchor 404. A failed list fetch gives 500. Past these, the result is the race-block search for `race_num + "R"`. |
| RaceCalendar.GetKaisaiDateUrl | back/src/routers/race_calendar.py:22-67 | The anchor loop with its `break` and the block loop with its early `return` compute the handler's outcome. The second fetch goes to the list URL. |
| LineBot.ParseCommandSpec | back/src/routers/line.py:33 | A message is a command exactly when it has three commas. Its four fields have no comma and, joined with commas, give the message back. |
| LineBot.ParseCommandOfFields | back/src/routers/line.py:33 | Four comma-free fields written as a command are read back unchanged. |
| LineBot.RequestBody | back/src/routers/line.py:43-48 | The body carries the four fields unchanged under `racecourse`, `count`, `race_date` and `race_num`. |
| LineBot.Lookup | back/src/routers/line.py:51 | `r[key]` succeeds exactly when the record has the key, and raises KeyError otherwise. |
| LineBot.LookupAt | back/src/routers/line.py:51 | `r[key]` is the value of the first pair with that key. |
| LineBot.FormatRowsSpec | back/src/routers/line.py:51 | The lines exist exactly when every record has the four keys, one per record, in order. Otherwise KeyError is raised. |
| LineBot.FormatResultRow | back/src/routers/line.py:51 | The line of a full result record is made from its rank, name, popularity and odds cells. |
| LineBot.HandleMessageSpec | back/src/routers/line.py:30-54 | A malformed message makes no request and gets the format error. A command is sent as its request. Its reply is the failure text unless the status is 200, else the lines joined by newlines, or KeyError when a record lacks a field. |
| LineBot.ReplyLines | back/src/routers/line.py:51 | When no line contains a newline, splitting the reply on newlines gives the lines back. |
| Wrappers.MapResultSpec | back/src/routers/line.py:51 | A list comprehension whose element may raise succeeds exactly when every element does, and holds the results in order. Otherwise the error is that of the first failing element. |

## Left out

- HTTP fetching, login sessions, page encodings, `_get_soup` and the base classes: these are I/O, and the fetched page and status are parameters.
- BeautifulSoup navigation and `pandas.read_html`: the model takes their results (cell texts, hrefs, spans, tables) as given sequences.
- Selenium driving (`_click`, `_get_element`, element lists, `Select` and the dropdown loop in `OddsScraper`): only the state fields and the index of the clicked tab are modelled.
- `time.sleep`, `tqdm`, `print`, and the printed race menu of `RealTimeOddsScraper.__init__` under `select_manually`: these only write to the console. The list read before the menu is modelled.
- `RealTimeOddsScraper.get_renpuku_odds` and `get_rentan_odds`: they label tables through `itertools.combinations` and `permutations`, and drop `NaN` rows from pandas frames. That rests on floating-point arithmetic and on the table count matching the combinations.
- `RealTimeOddsScraper.get_odds_df_dict` and `OddsScraper.get_odds_df_dict`: these only call the getters one after another.
- `OddsScraper.get_tansho_odds`, `get_fukusho_odds`, `__get_tanpuku_odds` and `get_wakuren_odds`: these are a fixed column pick over a pandas table, and a `NotImplementedError`.
- `DatabaseScraper.get_main_df`, `__get_id_list` and its three callers, `get_corner_df` and `get_laptime_df`: these are pandas frame construction and attribute-filtered searches.
- The other scrapers (`UmabashiraScraper`, `UmabashiraLimitedScraper`, `HorseResultsScraper`, `HorseDataScraper`) and the monthly and yearly crawl loops: these are fetching and fixed table picks.
- The two drifts of back/src/keiba_scr.py are not modelled: the second `__init__` at line 238, and `get_umabashira` returning the bound method `.copy` at line 258.
- Odds values: these are floats parsed from HTML and are an opaque string payload here.
- `strptime` and `strftime` internals beyond the one format each: a date is a validated (year, month, day) triple.
- The FastAPI wiring (back/src/main.py, back/src/routers/router.py), CORS, and the LINE webhook's signature check and client calls.
- front/src/components/RaceForm.tsx and front/src/components/Calendar.tsx (React UI), and back/src/test.py (a one-off network script).
- Text.ParseInt: `int()` also accepts surrounding whitespace, `_` between digits and non-ASCII Unicode decimal digits (`int('０５') == 5`). The model rejects all three, so a race id or page text carrying any of them decodes to ValueError here where the source reads a number.
- PayTable: the cell cleanup of back/keiba_scr.py:200-201 (`<br/>` replaced by `br`, the remaining tags and the newlines removed) is not modelled. The cell texts are taken after that cleanup.
- RealTimeOdds.RealTimeOddsScraper.constructor: when the racecourse list cannot be read under `select_manually`, the source raises out of `__init__`. The model has no failing constructor and leaves `raceList` empty instead.
- Regex: `\d` is ASCII here, while Python's `\d` also matches other Unicode decimal digits.
- Dates.Strptime: CPython's `%d` also accepts a space followed by one digit (`'2024年1月 5日'` gives 2024-01-05), which the model rejects with ValueError. No caller produces it: the only input is a `\d{4}年\d{1,2}月\d{1,2}日` match (back/keiba_scr.py:179-181).
- Dates.DigitField: for the same reason it does not read the space-padded day of CPython's `%d`.
- Dates.ExtendedIsBasicWithDashes: `strftime('%Y')` does not pad years below 1000 on every platform. The model always writes four digits, and race pages carry four-digit years.
- RaceidScraper.ListOfSet: Python leaves the order of `list(set(...))` unspecified. The model keeps first occurrences, and its contract does not speak of the order.
- RaceCalendar.CalendarUrl: the calendar URL only goes to the fetch and has no property of its own.
