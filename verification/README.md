# WiltCollector core in Dafny

WiltCollector gathers the recently played tracks of every Wilt user and stores
them in a BigQuery play-history table. This project models the core of its
`WiltCollectorCore` library:

- the incremental sync `update`: read the time of the user's last stored play,
  keep only the newer records and insert them in one call;
- the Firestore side: the `FireStoreValue` decoder with its fixed key priority,
  the `list` request (URL, page-token query, Bearer header) and how its
  outcome is mapped, and `FireStoreUserSequence`, the paginated user iterator,
  together with `toUser`, the document-to-user conversion;
- the BigQuery side: the mapping from play record to table row, the
  insert-error check, the last-update query, the three-way decision on its
  answer, and the decoding of `DateResult`;
- the DynamoDB side: validating scanned items and turning them into users.

Every call into a service or a Foundation parser is a parameter of the
function that makes it. This covers the database, the HTTP client, the
BigQuery and DynamoDB client libraries, `DateFormatter`,
`TimeInterval(String)`, `Double(String)` and `Date()`. A Swift `throws`
becomes a `Result`, and every error the core raises or passes on is a case
of `Outcomes.Error`.

Files and modules:

| file | module | models |
|---|---|---|
| outcomes.dfy | `Outcomes` | `Option`, `Result`, the error cases, `try xs.map(f)` |
| inttext.dfy | `IntText` | Swift's `Int(String)` on 64-bit integers, and decimal text |
| json.dfy | `Json` | JSON values and keyed-container decoding |
| wiltcore.dfy | `WiltCore` | `Artist`, `Track`, `PlayRecord`, `User`, `update` |
| firestoreapi.dfy | `FireStoreApi` | `FireStoreValue`, `ListHTTPResponse`, `ListDocument`, `FireStoreClient.list` |
| firestoreusers.dfy | `FireStoreUsers` | `FireStoreUser`, `toUser`, `FireStoreUserSequence` |
| bigquery.dfy | `BigQueryTable` | `BigQuerySchema`, `insert`, `getTimeOfLastUpdate`, `DateResult` |
| dynamodb.dfy | `DynamoUsers` | DynamoDB `getUsers` |

The user iterator is stepped over the outcomes of its successive page
fetches. Each fetch is one `getUsers()` call: a `list` request for the
current token, then every document converted. `FireStoreUsers.FetchesOf`
turns the client's list responses into such outcomes. The model records the
token each request sends. If the iterator asks for more pages than it was
given, the result is `OutOfScript`. This is how a run that would never stop
shows up in the model.

## Model

| member | source | states |
|---|---|---|
| Outcomes.MapAll | Sources/WiltCollectorCore/FireStoreUser.swift:83 | mapping a throwing conversion over a list succeeds exactly when every element converts, keeps length and order, and otherwise fails with the error of the first element that does not convert |
| IntText.ParseFormatInt | Sources/WiltCollectorCore/FireStoreClient.swift:72-73 | `Int(String)` (`IntText.ParseInt`) reads back the decimal text of every 64-bit integer, negative ones included |
| IntText.ParseIntRejectsNonDigit | Sources/WiltCollectorCore/FireStoreClient.swift:72-73 | `IntText.ParseInt` rejects text with a non-digit anywhere except a leading sign, the first character included |
| IntText.ParseIntRejectsOverflow | Sources/WiltCollectorCore/FireStoreClient.swift:72-73 | `Int(String)` (`IntText.ParseInt`) rejects a numeral above the 64-bit range, with or without a leading `+` |
| IntText.ParseIntRejectsUnderflow | Sources/WiltCollectorCore/FireStoreClient.swift:72-73 | `IntText.ParseInt` rejects a negative numeral below the 64-bit range, such as `-9223372036854775809` |
| WiltCore.ThresholdOf | Sources/WiltCollectorCore/WiltCollectorCore.swift:77 | the last-update time is the database's answer, or 0 when the database throws |
| WiltCore.PlayedAfter | Sources/WiltCollectorCore/WiltCollectorCore.swift:79 | a record is kept exactly when it is in the input and was played strictly after the threshold; the result is no longer than the input |
| WiltCore.Update | Sources/WiltCollectorCore/WiltCollectorCore.swift:74-88 | `update` asks for the last-update time once, for this user; it inserts once, for this user; the inserted records are the input records played after the threshold, in input order, each as often as it occurs in the input, and none played at or before it; the completion handler receives the insert's error, or nil when the insert succeeds |
| WiltCore.PlayedAfterIsSubsequence | Sources/WiltCollectorCore/WiltCollectorCore.swift:79 | the filtered list is a subsequence of the input: records are dropped, never reordered or repeated |
| WiltCore.PlayedAfterCounts | Sources/WiltCollectorCore/WiltCollectorCore.swift:79 | filtering keeps every occurrence of a newer record, duplicates included, and no occurrence of an older one |
| WiltCore.PlayedAfterConcat | Sources/WiltCollectorCore/WiltCollectorCore.swift:79 | filtering a concatenation filters each part on its own |
| WiltCore.PlayedAfterKeepsNewer | Sources/WiltCollectorCore/WiltCollectorCore.swift:79 | when every record is newer than the threshold, the input is inserted unchanged |
| WiltCore.PlayedAfterDropsOlder | Sources/WiltCollectorCore/WiltCollectorCore.swift:79 | when no record is newer than the threshold, nothing is inserted |
| WiltCore.PlayedAtThresholdExcluded | Sources/WiltCollectorCore/WiltCollectorCore.swift:79 | a record played exactly at the last-update time is not inserted again |
| WiltCore.UpdateWithoutLastUpdate | Sources/WiltCollectorCore/WiltCollectorCore.swift:77-81 | when the last-update lookup throws, every record played after 1970 is inserted, in order |
| WiltCore.UpdateDropsOlder | Sources/WiltCollectorCore/WiltCollectorCore.swift:77-81 | a history of newer records followed by older ones inserts exactly the newer ones |
| FireStoreApi.DecodeValue | Sources/WiltCollectorCore/FireStoreClient.swift:61-94 | the decoded variant is one whose key is present and readable (`FireStoreApi.TryKey`, by way of `FireStoreApi.Attempt`, the per-key `try? container.decode`), and no key earlier in the order string, boolean, integer, double, timestamp, bytes, reference is readable; an object with no readable known key fails with the value-decoding error; a non-object fails as the keyed container does |
| FireStoreApi.DecodeValueIsFirstDecodable | Sources/WiltCollectorCore/FireStoreClient.swift:61-93 | the decoder agrees with a plain search for the first readable key in priority order |
| FireStoreApi.DecodeValueSkipsUnreadable | Sources/WiltCollectorCore/FireStoreClient.swift:64-92 | a key whose payload has the wrong type is passed over as if absent. An `integerValue` string that is not an integer counts as the wrong type |
| FireStoreApi.DecodeValueIgnoresUnknownKeys | Sources/WiltCollectorCore/FireStoreClient.swift:47-55 | keys outside the seven coding keys never affect the decoded value |
| FireStoreApi.DecodeEncodeValue | Sources/WiltCollectorCore/FireStoreClient.swift:37-94 | every value, written the way Firestore writes it (integers as decimal text), decodes back to itself |
| FireStoreApi.DecodeDocument | Sources/WiltCollectorCore/FireStoreClient.swift:31-34 | a document decodes exactly when it has a string `name` and decodable `fields`, and keeps both |
| FireStoreApi.DecodeDocumentIgnoresOtherKeys | Sources/WiltCollectorCore/FireStoreClient.swift:31-34 | keys of a document other than `name` and `fields`, such as `createTime` and `updateTime`, never change how it decodes |
| FireStoreApi.DecodeListHTTPResponse | Sources/WiltCollectorCore/FireStoreClient.swift:13-15 | `documents` is required: an object without it fails with key-not-found; an object whose `documents` is an array of decodable documents and whose `nextPageToken` is a string or absent decodes; a decoded page holds each listed document decoded, in order, and the optional `nextPageToken` |
| FireStoreApi.DecodeEncodeListHTTPResponse | Sources/WiltCollectorCore/FireStoreClient.swift:13-34 | a page as Firestore writes it, with the token key left out on the last page, decodes back to the same documents and token |
| FireStoreApi.NewClient | Sources/WiltCollectorCore/FireStoreClient.swift:103-108 | the client keeps the token, and its list URL (`FireStoreApi.ListUrl`) names the project and the collection; the project can be read back when its id has no `/`, and the collection can be read back for any project id |
| FireStoreApi.ListUrlNames | Sources/WiltCollectorCore/FireStoreClient.swift:107 | the list URL built by `FireStoreApi.ListUrl` has the project between `projects/` and the next `/` when the project id has no `/`, and the collection after `projects/<project>/databases/(default)/documents/` for any project id |
| FireStoreApi.ListUrlInjective | Sources/WiltCollectorCore/FireStoreClient.swift:107 | two single-segment projects give the same list URL only for the same project and collection |
| FireStoreApi.PageTokenOfQuery | Sources/WiltCollectorCore/FireStoreClient.swift:120-127 | the page token can be read back from the list URL followed by the query `FireStoreApi.QueryParam` builds, and a URL without a query asks for no token |
| FireStoreApi.ListRequest | Sources/WiltCollectorCore/FireStoreClient.swift:120-128 | the URL is the list URL alone without a token, or the list URL plus `?pageToken=` and the token (`FireStoreApi.QueryParam`); the token can be read back from it; the only header is `Authorization: Bearer` and the client's token |
| FireStoreApi.NextPageRequest | Sources/WiltCollectorCore/FireStoreClient.swift:17-27 | the next-page request asks for the page's own token, and it is a plain first-page request exactly when `isAnotherPageAvailable` (`ListHTTPResponse.IsAnotherPageAvailable`, a token is present) is false |
| FireStoreApi.ListOutcome | Sources/WiltCollectorCore/FireStoreClient.swift:129-146 | a transport error is passed on as `.error`; a body that is not JSON, or does not decode, is an `.error`; otherwise the decoded page is the `.response` |
| FireStoreApi.List | Sources/WiltCollectorCore/FireStoreClient.swift:118-148 | the completion handler receives the transport error when the HTTP client reports one |
| FireStoreApi.ListWithoutDocuments | Sources/WiltCollectorCore/FireStoreClient.swift:137-146 | a JSON body without `documents` yields a key-not-found error, whatever else it holds |
| FireStoreApi.ListOfEncodedPage | Sources/WiltCollectorCore/FireStoreClient.swift:118-148 | a reply carrying a page as Firestore writes it, with no transport error, reaches the completion handler as exactly that page |
| FireStoreUsers.DecodeFireStoreUser | Sources/WiltCollectorCore/FireStoreUser.swift:4-8 | user fields decode exactly when all three values decode, and are then those three values |
| FireStoreUsers.DecodeEncodeFireStoreUser | Sources/WiltCollectorCore/FireStoreUser.swift:4-8 | user fields as Firestore writes them decode back to themselves |
| FireStoreUsers.LastSegment | Sources/WiltCollectorCore/FireStoreUser.swift:93-95 | a name has no id exactly when it is made of `/` only; otherwise the id is its last non-empty `/`-separated segment |
| FireStoreUsers.LastSegmentUnique | Sources/WiltCollectorCore/FireStoreUser.swift:93 | a name has at most one last segment, so the id is well defined |
| FireStoreUsers.LastSegmentOfPath | Sources/WiltCollectorCore/FireStoreUser.swift:93 | a collection path followed by a `/`-free id and any number of trailing `/` yields that id |
| FireStoreUsers.ToUser | Sources/WiltCollectorCore/FireStoreUser.swift:91-116 | the name is checked first, then the access token, the refresh token and the expiry variant, and the first failing check gives its error with the field's label; a document converts exactly when all four checks pass and the date parser reads the expiry; a converted user has the name's last segment as id, both tokens copied, and the parsed expiry |
| FireStoreUsers.ToUserInvalidDate | Sources/WiltCollectorCore/FireStoreUser.swift:105-109 | a timestamp the date parser rejects fails with that timestamp text, unchanged |
| FireStoreUsers.ToUserOfUserDocument | Sources/WiltCollectorCore/FireStoreUser.swift:91-116 | the document stored for a user under a collection path converts back to that user when the parser reads the stored expiry back |
| FireStoreUsers.GetUsers | Sources/WiltCollectorCore/FireStoreUser.swift:69-84 | a list error is rethrown; a page succeeds exactly when every document converts, so one bad document fails the whole page; a converted page has one user per document, in order, and the response's token, which is present exactly when `isAnotherPageAvailable` holds |
| FireStoreUsers.UpdatePage | Sources/WiltCollectorCore/FireStoreUser.swift:58-63 | a fetched page replaces the users and the token and resets the count to 0; as written, `firstCall` is untouched |
| FireStoreUsers.Next | Sources/WiltCollectorCore/FireStoreUser.swift:35-53 | a user left on the page is returned without fetching; once a user has been returned, a used-up page without a token returns nil; each request uses up one fetch; the first request sends the current token; a failed fetch returns nil and leaves the state alone; a user returned after fetching is the first user of the last page fetched |
| FireStoreUsers.NextRequestsFollowFetches | Sources/WiltCollectorCore/FireStoreUser.swift:37-63 | within one call of `next()`, every request but the last follows a successful fetch, and each request after the first sends the `nextPageToken` of the page just fetched |
| FireStoreUsers.DrainYields | Sources/WiltCollectorCore/FireStoreUser.swift:49-52 | iterating from a page with users left returns the next user first |
| FireStoreUsers.DrainAfterFetch | Sources/WiltCollectorCore/FireStoreUser.swift:37-47 | iterating from a used-up page first requests the current token, then continues on the fetched page |
| FireStoreUsers.DrainFrom | Sources/WiltCollectorCore/FireStoreUser.swift:35-63 | for the iterator as written and the corrected one alike, once a user has been returned, iteration returns the rest of the current page and then every user of every following page; it requests each following page with the token of the page before it, and stops after the page without a token |
| FireStoreUsers.DrainReadsEveryPage | Sources/WiltCollectorCore/FireStoreUser.swift:24-63 | over the pages of a collection, the corrected iterator requests no token first and then each page's token in turn; it returns every user of every page in page order, and ends |
| FireStoreUsers.AsWrittenReadsEveryPage | Sources/WiltCollectorCore/FireStoreUser.swift:24-63 | over the pages of a collection that holds at least one user, the iterator as written makes the same walk as the corrected one: no token first, then each page's token, every user in page order, and an end, even when the leading pages are empty |
| FireStoreUsers.AsWrittenEmptyNeverEnds | Sources/WiltCollectorCore/FireStoreUser.swift:29-49 | over a collection without users, the iterator as written never returns nil: it fetches every page and then asks for the first page again, for as many fetches as it is given |
| FireStoreUsers.EmptyLastPageRestarts | Sources/WiltCollectorCore/FireStoreUser.swift:29-49 | as written, a first page that is empty and carries no token is requested again and again without end; the corrected iterator stops after one request |
| BigQueryTable.ToRow | Sources/WiltCollectorCore/BigQuery.swift:107-122 | the row's artists are the track's artist names, every one in order (`BigQueryTable.ArtistNames`, line 109), and the primary artist is the first of them; the track name, track id and play time are copied; the row belongs to the user's id; the record reads back from the row (`BigQueryTable.RecordOf`) |
| BigQueryTable.ToRows | Sources/WiltCollectorCore/BigQuery.swift:107-122 | one row per record, in record order |
| BigQueryTable.RecordOfToRow | Sources/WiltCollectorCore/BigQuery.swift:113-121 | a row keeps all of its record: artists, track name, track id and play time can be read back |
| BigQueryTable.ToRowsRoundTrip | Sources/WiltCollectorCore/BigQuery.swift:107-122 | the rows of one insert read back as exactly the inserted records, in order, all owned by the user |
| BigQueryTable.ToRowInjective | Sources/WiltCollectorCore/BigQuery.swift:113-121 | different records, or different user ids, give different rows |
| BigQueryTable.Insert | Sources/WiltCollectorCore/BigQuery.swift:105-140 | `insert` sends one row per record, in order; it throws exactly when the library fails or reports insert errors, even an empty list of them, and then throws that error |
| BigQueryTable.UpdateStoresNewerRows | Sources/WiltCollectorCore/BigQuery.swift:105-122 | with BigQuery as the database, and only the records past the threshold required to name an artist, `update` stores rows that read back as a subsequence of the recent plays; every row is the user's, and every row's date is after the last-update time |
| BigQueryTable.LastUpdateQuery | Sources/WiltCollectorCore/BigQuery.swift:75 | the query names its user: the id can be read back from it, so different users get different queries |
| BigQueryTable.QueryUserId | Sources/WiltCollectorCore/BigQuery.swift:75 | an id read from a query sits between the fixed select on `wilt_play_history.play_history` and the `ORDER BY date DESC LIMIT 1` tail |
| BigQueryTable.TimeOfLastUpdate | Sources/WiltCollectorCore/BigQuery.swift:73-97 | a library error is rethrown; a first row's date wins even when errors come with it; with no row, the query errors are thrown if there are any, and otherwise the current time is returned |
| BigQueryTable.NoHistoryStoresOnlyLaterPlays | Sources/WiltCollectorCore/BigQuery.swift:89-92 | a user with no stored history gets the current time as threshold, so `update` stores nothing played up to now |
| BigQueryTable.QueryErrorsStoreEverything | Sources/WiltCollectorCore/BigQuery.swift:89-93 | query errors without a row make `update` fall back to 0 and store the whole history |
| BigQueryTable.TimeOfLastUpdateCorrected | Sources/WiltCollectorCore/BigQuery.swift:86-95 | the corrected lookup reports no entries when the answer has no row and no error, and otherwise agrees with `getTimeOfLastUpdate` for any current time |
| BigQueryTable.NoEntriesStoresEverything | Sources/WiltCollectorCore/BigQuery.swift:89-92 | with the corrected lookup, a user with no stored history gets the whole history played after 1970 stored, in order |
| BigQueryTable.DecodeDateResult | Sources/WiltCollectorCore/BigQuery.swift:17-29 | the date must be a string that reads as a number; text that does not read fails as corrupted data at `date`; a missing `date` fails with key-not-found |
| BigQueryTable.DecodeEncodeDateResult | Sources/WiltCollectorCore/BigQuery.swift:17-29 | a date sent as text that the parser reads back decodes to itself |
| BigQueryTable.DateAsNumberMismatch | Sources/WiltCollectorCore/BigQuery.swift:19 | a date sent as a JSON number is a type mismatch |
| DynamoUsers.ItemToUser | Sources/WiltCollectorCore/DynamoDB.swift:21-37 | an item converts exactly when `id`, `access_token` and `refresh_token` are string attributes and `expires_at` is a number attribute that parses; the strings are copied unchanged, and the expiry counts its seconds from 1 January 2001; any failure is `unexpectedFailure` |
| DynamoUsers.ItemToUserOfUserToItem | Sources/WiltCollectorCore/DynamoDB.swift:22-36 | the item stored for a user converts back to that user |
| DynamoUsers.ItemToUserIgnoresOtherKeys | Sources/WiltCollectorCore/DynamoDB.swift:22-27 | attributes other than the four are never read |
| DynamoUsers.NumericIdRejected | Sources/WiltCollectorCore/DynamoDB.swift:22-27 | an id stored as a number attribute is rejected |
| DynamoUsers.GetUsers | Sources/WiltCollectorCore/DynamoDB.swift:16-38 | a scan error is rethrown and a scan without items fails with `unexpectedFailure`; otherwise there is one user per item, in order, and one bad item fails the whole call with `unexpectedFailure` |
| DynamoUsers.GetUsersOfStoredUsers | Sources/WiltCollectorCore/DynamoDB.swift:16-38 | a table holding the stored form of some users yields exactly those users, in scan order |

## Left out

- The ProrsumNet package (TCP streams and sockets) is not part of this model. It is operating-system I/O with blocking modes, deadlines and threads.
- Authentication and HTTP plumbing are not modelled. This covers `FireStoreAuthProvider`, the `BigQueryInterface` and `FireStoreInterface` initialisers, and `SwiftyRequestClient`. They are foreign-library calls and asynchronous waits.
- `Spotify.swift` and `main.swift` are not modelled. They are callback glue around clients that cannot be seen, plus environment variables and dispatch groups.
- Semaphores and callbacks are not modelled. Each blocking call is modelled by its answer, given as a parameter.
- The `fatalError`s are preconditions. They fire on a nil HTTP body with no error, a record without artists, and an empty library response. `ListOutcome` and `List` require an error or a body, and `ToRow`, `ToRows` and `Insert` require artists.
- `DateFormatter` with `yyyy-MM-dd'T'HH:mm:ss.SSSZ`, `TimeInterval(String)`, `Double(String)` and `Date()` are parameters. Their parsing and rounding are not modelled. `TimeInterval` is an exact real.
- A `doubleValue` payload keeps its JSON number as text. Foundation's bridging between JSON numbers and `Bool` is not modelled.
- Foundation's `DecodingError` details (coding path, debug description) are not modelled. The same goes for the `dump` text in the value-decoding error and the `print` in `update`.
- `ListHTTPResponse.nextPage` is modelled by the request it sends (`NextPageRequest`). The answer is the same `List` call.
- The iterator's page source is a finite list of fetch outcomes. A run that would fetch without end shows up as `OutOfScript` once the list runs out. The iterator as written is shown to end on every collection holding a user, and never to end on one without users whose every reply decodes, which takes an explicit empty `documents` array in each body (see Findings); a reply without `documents` fails to decode, and a failed fetch ends the iterator.
- The user id goes into the BigQuery query unescaped. What the database makes of an id containing a quote is not modelled.
- FireStoreApi.List: its own contract states only the transport-error case. The decode cases are stated on `FireStoreApi.ListOutcome`, which `List` applies to the reply.
- WiltCore.Update: models one play-history callback. The play-history client promises no count, and the Spotify client can call back more than once (Spotify.swift:80-82 and 95-96, where the callback is not followed by a return); each extra call runs the lookup and the insert again with the same threshold. `Spotify.swift` is not part of this model.
- FireStoreUsers.LastSegment: works on Unicode scalars. Swift's `split(separator:)` compares grapheme clusters under canonical equivalence, so a name such as `users/a/\u{301}` (a combining accent after the last `/`) is one segment `a/\u{301}` to Swift and `\u{301}` here. Equality of strings is likewise scalar by scalar, where Swift's `==` identifies canonically equivalent strings. Names made of ASCII are read alike.
- FireStoreUsers.Next: its contract states the observable steps: a user on the page, the end of the sequence, a failed fetch, and the first token sent; which token each later request sends is stated by `FireStoreUsers.NextRequestsFollowFetches`. It does not state every intermediate state after an empty page. Those are covered by the Drain lemmas.

## Findings

| source | as written | input that shows it | evidently intended | confidence | as-written member | corrected member |
|---|---|---|---|---|---|---|
| Sources/WiltCollectorCore/FireStoreUser.swift:29-49 | `firstCall` is cleared only when `next()` returns a user, so a fetched page does not clear it | a collection whose first page has no documents and no `nextPageToken`, sent as a 200 reply whose body carries an explicit `"documents": []`: `next()` requests the first page (nil token) again and again and never returns nil; the same holds for any collection without users whose replies all decode (`FireStoreUsers.AsWrittenEmptyNeverEnds`). A body without `documents` instead fails with key-not-found (`FireStoreApi.ListWithoutDocuments`), and that failed fetch ends the iterator after one request | any fetched page without a next-page token ends the sequence; the flag exists only so that the very first fetch is made | not executed | FireStoreUsers.EmptyLastPageRestarts | FireStoreUsers.DrainReadsEveryPage |
| Sources/WiltCollectorCore/BigQuery.swift:89-92 | with no stored row and no error, the last-update time is the current time; `LastUpdateError.noEntries` is declared (WiltCollectorCore.swift:62) but never thrown | a user whose table is empty: `update` stores only plays later than the lookup (BigQuery.swift:91, reached from WiltCollectorCore.swift:77), so none of the history fetched before it at WiltCollectorCore.swift:78 | a user without entries falls back to 0, as on a query error, and gets the whole history stored | not executed | BigQueryTable.NoHistoryStoresOnlyLaterPlays | BigQueryTable.NoEntriesStoresEverything |
