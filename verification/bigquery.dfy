/** The play-history table in BigQuery.

`insert` turns each play record into one row of the `play_history` table,
keeping the order, and fails when the service reports any insert errors.
`getTimeOfLastUpdate` asks for the newest stored play of a user and reads the
answer three ways: the first row's date, the query errors, or the current time
when the user has no history and nothing went wrong.
 */
module BigQueryTable {
  import opened Outcomes
  import opened Json
  import opened WiltCore

  // ---------------------------------------------------------------------------
  // Rows

  /** One row of `wilt_play_history.play_history`. */
  datatype BigQuerySchema = BigQuerySchema(
    primary_artist: string,
    artists: seq<string>,
    name: string,
    date: TimeInterval,
    track_id: string,
    user_id: string)

  /** Every record names at least one artist: `insert` stops the process otherwise. */
  predicate HasArtists(items: seq<PlayRecord>) {
    forall i :: 0 <= i < |items| ==> |items[i].track.artists| > 0
  }

  /** `track.artists.map { $0.name }`. */
  function ArtistNames(artists: seq<Artist>): (names: seq<string>)
    ensures |names| == |artists|
    ensures forall i :: 0 <= i < |artists| ==> names[i] == artists[i].name
  {
    seq(|artists|, i requires 0 <= i < |artists| => artists[i].name)
  }

  /** The row `insert` builds for one record of `user`. */
  function ToRow(item: PlayRecord, user: User): (row: BigQuerySchema)
    requires |item.track.artists| > 0
    ensures |row.artists| > 0 && row.primary_artist == row.artists[0]
    ensures row.primary_artist == item.track.artists[0].name
    ensures row.user_id == user.id
    // the row keeps every artist name, in order, and the track and play time
    ensures |row.artists| == |item.track.artists|
    ensures forall i :: 0 <= i < |row.artists| ==> row.artists[i] == item.track.artists[i].name
    ensures row.name == item.track.name && row.track_id == item.track.id
    ensures row.date == item.playedAt.timeIntervalSince1970
    // so the record can be read back out of it
    ensures RecordOf(row) == item
  {
    var artists := ArtistNames(item.track.artists);
    var row := BigQuerySchema(artists[0], artists, item.track.name, item.playedAt.timeIntervalSince1970, item.track.id, user.id);
    assert RecordOf(row).track.artists == item.track.artists;
    row
  }

  /** The rows of one `insert` call: one per record, in the same order. */
  function ToRows(items: seq<PlayRecord>, user: User): (rows: seq<BigQuerySchema>)
    requires HasArtists(items)
    ensures |rows| == |items|
    ensures forall i :: 0 <= i < |items| ==> rows[i] == ToRow(items[i], user)
  {
    seq(|items|, i requires 0 <= i < |items| && HasArtists(items) => ToRow(items[i], user))
  }

  /** The record a row was made from: a row keeps everything of its record. */
  function RecordOf(row: BigQuerySchema): PlayRecord {
    PlayRecord(
      Track(seq(|row.artists|, i requires 0 <= i < |row.artists| => Artist(row.artists[i])), row.track_id, row.name),
      Date(row.date))
  }

  /** Reading a record back out of its row gives the record. */
  lemma RecordOfToRow(item: PlayRecord, user: User)
    requires |item.track.artists| > 0
    ensures RecordOf(ToRow(item, user)) == item
  {
    var artists := RecordOf(ToRow(item, user)).track.artists;
    assert artists == item.track.artists;
  }

  /** The rows of one call are the records, in order, all owned by the user. */
  lemma ToRowsRoundTrip(items: seq<PlayRecord>, user: User)
    requires HasArtists(items)
    ensures var rows := ToRows(items, user);
      && (forall i :: 0 <= i < |rows| ==> RecordOf(rows[i]) == items[i] && rows[i].user_id == user.id)
      && seq(|rows|, i requires 0 <= i < |rows| => RecordOf(rows[i])) == items
  {
    var rows := ToRows(items, user);
    forall i | 0 <= i < |rows|
      ensures RecordOf(rows[i]) == items[i]
    {
      RecordOfToRow(items[i], user);
    }
  }

  /** Two rows differ whenever their records or their users' ids differ. */
  lemma ToRowInjective(a: PlayRecord, b: PlayRecord, user: User, other: User)
    requires |a.track.artists| > 0 && |b.track.artists| > 0
    requires ToRow(a, user) == ToRow(b, other)
    ensures a == b && user.id == other.id
  {
    RecordOfToRow(a, user);
    RecordOfToRow(b, other);
  }

  // ---------------------------------------------------------------------------
  // Insert

  /** What the client library reports for `insert(rows:)`: either an error
      (thrown or delivered), or a response with its optional `insertErrors`. */
  datatype InsertCallResponse =
    | InsertFailed(error: Error)
    | InsertResponse(insertErrors: Option<seq<InsertError>>)

  /** One run of `insert(items:user:)`: the rows sent and the error thrown, if any. */
  datatype InsertRun = InsertRun(rows: seq<BigQuerySchema>, thrown: Option<Error>)

  /** `insert(items:user:)`, with the client library's answer as a parameter. */
  function Insert(items: seq<PlayRecord>, user: User, send: seq<BigQuerySchema> -> InsertCallResponse): (run: InsertRun)
    requires HasArtists(items)
    ensures |run.rows| == |items|
    ensures forall i :: 0 <= i < |items| ==> run.rows[i] == ToRow(items[i], user)
    // it fails exactly when the library fails or reports insert errors,
    // even an empty list of them
    ensures run.thrown.None? <==> send(run.rows) == InsertResponse(None)
    ensures send(run.rows).InsertFailed? ==> run.thrown == Some(send(run.rows).error)
    ensures send(run.rows).InsertResponse? && send(run.rows).insertErrors.Some? ==>
      run.thrown == Some(InsertErrors(send(run.rows).insertErrors.value))
  {
    var rows := ToRows(items, user);
    match send(rows)
    case InsertFailed(e) => InsertRun(rows, Some(e))
    case InsertResponse(None) => InsertRun(rows, None)
    case InsertResponse(Some(errors)) => InsertRun(rows, Some(InsertErrors(errors)))
  }

  /** What `update` stores when the database is this table: one row per record
      played after the threshold, in play order, every one owned by the user.
      Only the records past the threshold need an artist, since only they are
      converted to rows. */
  lemma UpdateStoresNewerRows(
    user: User,
    timeOfLastUpdate: User -> Result<TimeInterval>,
    recentlyPlayed: seq<PlayRecord>,
    insert: (seq<PlayRecord>, User) -> Option<Error>,
    send: seq<BigQuerySchema> -> InsertCallResponse
  )
    requires HasArtists(PlayedAfter(recentlyPlayed, ThresholdOf(timeOfLastUpdate(user))))
    ensures var call := Update(user, timeOfLastUpdate, recentlyPlayed, insert).insertCalls[0];
      var rows := Insert(call.items, call.user, send).rows;
         && IsSubsequence(seq(|rows| , i requires 0 <= i < |rows| => RecordOf(rows[i])), recentlyPlayed)
         && forall i :: 0 <= i < |rows| ==>
              rows[i].user_id == user.id && rows[i].date > ThresholdOf(timeOfLastUpdate(user))
  {
    var call := Update(user, timeOfLastUpdate, recentlyPlayed, insert).insertCalls[0];
    var rows := Insert(call.items, call.user, send).rows;
    assert seq(|rows|, i requires 0 <= i < |rows| => RecordOf(rows[i])) == call.items by {
      ToRowsRoundTrip(call.items, call.user);
    }
    forall i | 0 <= i < |rows|
      ensures rows[i].date > ThresholdOf(timeOfLastUpdate(user))
    {
      assert call.items[i] in call.items;
    }
  }

  // ---------------------------------------------------------------------------
  // Last update

  const QueryPrefix: string := "SELECT date FROM wilt_play_history.play_history WHERE user_id = '"
  const QuerySuffix: string := "' ORDER BY date DESC LIMIT 1"

  /** The user id a last-update query asks about, if it is one. */
  function QueryUserId(q: string): (id: Option<string>)
    ensures id.Some? ==> q == QueryPrefix + id.value + QuerySuffix
  {
    if |q| >= |QueryPrefix| + |QuerySuffix|
       && q[..|QueryPrefix|] == QueryPrefix
       && q[|q| - |QuerySuffix|..] == QuerySuffix
    then
      var id := q[|QueryPrefix|..|q| - |QuerySuffix|];
      assert q == q[..|QueryPrefix|] + id + q[|q| - |QuerySuffix|..];
      Some(id)
    else None
  }

  /** The query for a user's newest stored play. It names its user: the id can
      be read back, so different users get different queries. */
  function LastUpdateQuery(userId: string): (q: string)
    ensures QueryUserId(q) == Some(userId)
  {
    var q := QueryPrefix + userId + QuerySuffix;
    assert q[..|QueryPrefix|] == QueryPrefix;
    assert q[|q| - |QuerySuffix|..] == QuerySuffix;
    assert q[|QueryPrefix|..|q| - |QuerySuffix|] == userId;
    q
  }

  /** A row of the query's answer. */
  datatype DateResult = DateResult(date: TimeInterval)

  /** What the client library reports for `query`: an error (thrown or
      delivered), or a response with its optional rows and optional errors. */
  datatype QueryCallResponse =
    | QueryFailed(error: Error)
    | QueryResponse(rows: Option<seq<DateResult>>, errors: Option<seq<BigQueryError>>)

  /** `getTimeOfLastUpdate(user:)`, with the library's answer to each query and
      the current time as parameters. */
  function TimeOfLastUpdate(user: User, query: string -> QueryCallResponse, now: TimeInterval): (r: Result<TimeInterval>)
    ensures query(LastUpdateQuery(user.id)).QueryFailed? ==> r == Failure(query(LastUpdateQuery(user.id)).error)
    // a first row wins, whatever errors come with it
    ensures var a := query(LastUpdateQuery(user.id));
      a.QueryResponse? && a.rows.Some? && |a.rows.value| > 0 ==> r == Success(a.rows.value[0].date)
    // without a row: the errors if there are any, the current time if not
    ensures var a := query(LastUpdateQuery(user.id));
      (a.QueryResponse? && (a.rows.None? || a.rows.value == [])) ==>
        r == (if a.errors.Some? then Failure(QueryErrors(a.errors.value)) else Success(now))
  {
    match query(LastUpdateQuery(user.id))
    case QueryFailed(e) => Failure(e)
    case QueryResponse(rows, errors) =>
      if rows.Some? && |rows.value| > 0 then Success(rows.value[0].date)
      else if errors.Some? then Failure(QueryErrors(errors.value))
      else Success(now)
  }

  /** A user with no stored history and no query errors gets the current time as
      the threshold: `update` then stores nothing played up to now. */
  lemma NoHistoryStoresOnlyLaterPlays(
    user: User,
    query: string -> QueryCallResponse,
    now: TimeInterval,
    recentlyPlayed: seq<PlayRecord>,
    insert: (seq<PlayRecord>, User) -> Option<Error>
  )
    requires query(LastUpdateQuery(user.id)) == QueryResponse(None, None)
    requires forall x :: x in recentlyPlayed ==> x.playedAt.timeIntervalSince1970 <= now
    ensures Update(user, u => TimeOfLastUpdate(u, query, now), recentlyPlayed, insert).insertCalls
      == [InsertCall([], user)]
  {
    var timeOfLastUpdate := (u: User) => TimeOfLastUpdate(u, query, now);
    assert ThresholdOf(timeOfLastUpdate(user)) == now;
    PlayedAfterDropsOlder(recentlyPlayed, now);
  }

  /** When the query reports errors and no row, `update` falls back to 0 and
      stores the whole history played after 1970, in order. */
  lemma QueryErrorsStoreEverything(
    user: User,
    query: string -> QueryCallResponse,
    now: TimeInterval,
    errors: seq<BigQueryError>,
    recentlyPlayed: seq<PlayRecord>,
    insert: (seq<PlayRecord>, User) -> Option<Error>
  )
    requires query(LastUpdateQuery(user.id)) == QueryResponse(Some([]), Some(errors))
    requires forall x :: x in recentlyPlayed ==> x.playedAt.timeIntervalSince1970 > 0.0
    ensures Update(user, u => TimeOfLastUpdate(u, query, now), recentlyPlayed, insert).insertCalls
      == [InsertCall(recentlyPlayed, user)]
  {
    var timeOfLastUpdate := (u: User) => TimeOfLastUpdate(u, query, now);
    assert timeOfLastUpdate(user) == Failure(QueryErrors(errors));
    UpdateWithoutLastUpdate(user, timeOfLastUpdate, recentlyPlayed, insert);
  }

  /** The lookup the declared but never thrown `LastUpdateError.noEntries`
      stands for: a user without stored plays is reported as having no
      entries, so that `update` falls back to 0 instead of the current time.
      Every other answer is read as `getTimeOfLastUpdate(user:)` reads it. */
  function TimeOfLastUpdateCorrected(user: User, query: string -> QueryCallResponse): (r: Result<TimeInterval>)
    // no row and no error: no entries
    ensures var a := query(LastUpdateQuery(user.id));
      a.QueryResponse? && (a.rows.None? || a.rows.value == []) && a.errors.None? ==> r == Failure(NoEntries)
    // any other answer: what `getTimeOfLastUpdate(user:)` makes of it, whatever the time
    ensures var a := query(LastUpdateQuery(user.id));
      !(a.QueryResponse? && (a.rows.None? || a.rows.value == []) && a.errors.None?) ==>
        forall now :: r == TimeOfLastUpdate(user, query, now)
  {
    match query(LastUpdateQuery(user.id))
    case QueryFailed(e) => Failure(e)
    case QueryResponse(rows, errors) =>
      if rows.Some? && |rows.value| > 0 then Success(rows.value[0].date)
      else if errors.Some? then Failure(QueryErrors(errors.value))
      else Failure(NoEntries)
  }

  /** With the corrected lookup, a user with no stored history gets the whole
      history played after 1970 stored, in order. */
  lemma NoEntriesStoresEverything(
    user: User,
    query: string -> QueryCallResponse,
    recentlyPlayed: seq<PlayRecord>,
    insert: (seq<PlayRecord>, User) -> Option<Error>
  )
    requires query(LastUpdateQuery(user.id)) == QueryResponse(None, None)
    requires forall x :: x in recentlyPlayed ==> x.playedAt.timeIntervalSince1970 > 0.0
    ensures Update(user, u => TimeOfLastUpdateCorrected(u, query), recentlyPlayed, insert).insertCalls
      == [InsertCall(recentlyPlayed, user)]
  {
    var timeOfLastUpdate := (u: User) => TimeOfLastUpdateCorrected(u, query);
    assert timeOfLastUpdate(user) == Failure(NoEntries);
    UpdateWithoutLastUpdate(user, timeOfLastUpdate, recentlyPlayed, insert);
  }

  /** `DateResult.init(from:)`: the date is stored as text and read with
      `TimeInterval(String)`, given here as `parseInterval`. */
  function DecodeDateResult(j: Json, parseInterval: string -> Option<TimeInterval>): (r: Result<DateResult>)
    ensures r.Success? <==>
      j.JObject? && DecodeString(j.fields, "date").Success? && parseInterval(DecodeString(j.fields, "date").value).Some?
    ensures r.Success? ==> r.value.date == parseInterval(j.fields["date"].s).value
    // text that does not read as a number is reported as corrupted data at `date`
    ensures (j.JObject? && DecodeString(j.fields, "date").Success? &&
             parseInterval(DecodeString(j.fields, "date").value).None?) ==>
      r == Failure(DataCorrupted("date"))
    ensures j.JObject? && "date" !in j.fields ==> r == Failure(KeyNotFound("date"))
  {
    var fields :- Container(j);
    var text :- DecodeString(fields, "date");
    match parseInterval(text)
    case None => Failure(DataCorrupted("date"))
    case Some(date) => Success(DateResult(date))
  }

  /** The row as the service sends it: the date as text. */
  function EncodeDateResult(d: DateResult, formatInterval: TimeInterval -> string): Json {
    JObject(map["date" := JString(formatInterval(d.date))])
  }

  /** A date written as text the parser reads back decodes to itself. */
  lemma DecodeEncodeDateResult(d: DateResult, formatInterval: TimeInterval -> string, parseInterval: string -> Option<TimeInterval>)
    requires parseInterval(formatInterval(d.date)) == Some(d.date)
    ensures DecodeDateResult(EncodeDateResult(d, formatInterval), parseInterval) == Success(d)
  {
  }

  /** A date sent as a JSON number instead of text is a type mismatch: the
      decoder asks for a string. */
  lemma DateAsNumberMismatch(n: Number, parseInterval: string -> Option<TimeInterval>)
    ensures DecodeDateResult(JObject(map["date" := JNumber(n)]), parseInterval) == Failure(TypeMismatch)
  {
  }
}
