/** Wilt users read from a Firestore collection, page by page.

A document becomes a `User` when its name has a last path segment (the user
id), its two tokens are string values and its expiry is a timestamp value that
the date parser accepts. `FireStoreUserSequence` walks the collection: it hands
out the users of the current page and, once the page is used up, fetches the
next one with the page token the previous page returned, stopping on a missing
token or on any error.
 */
module FireStoreUsers {
  import opened Outcomes
  import opened Json
  import opened WiltCore
  import opened FireStoreApi

  /** The Firestore fields of a user document. */
  datatype FireStoreUser = FireStoreUser(access_token: FireStoreValue, refresh_token: FireStoreValue, expires_at: FireStoreValue)

  /** One required `FireStoreValue` of a keyed container. */
  function DecodeField(fields: map<string, Json>, key: string): (r: Result<FireStoreValue>)
    ensures key !in fields ==> r == Failure(KeyNotFound(key))
    ensures key in fields ==> r == DecodeValue(fields[key])
  {
    if key !in fields then Failure(KeyNotFound(key)) else DecodeValue(fields[key])
  }

  /** `FireStoreUser`'s synthesized decoder: the three fields in declaration order. */
  function DecodeFireStoreUser(j: Json): (r: Result<FireStoreUser>)
    ensures r.Success? <==>
      j.JObject? && DecodeField(j.fields, "access_token").Success? &&
      DecodeField(j.fields, "refresh_token").Success? && DecodeField(j.fields, "expires_at").Success?
    ensures r.Success? ==> r.value == FireStoreUser(
      DecodeField(j.fields, "access_token").value,
      DecodeField(j.fields, "refresh_token").value,
      DecodeField(j.fields, "expires_at").value)
  {
    var fields :- Container(j);
    var access :- DecodeField(fields, "access_token");
    var refresh :- DecodeField(fields, "refresh_token");
    var expires :- DecodeField(fields, "expires_at");
    Success(FireStoreUser(access, refresh, expires))
  }

  function EncodeFireStoreUser(u: FireStoreUser): Json {
    JObject(map[
      "access_token" := EncodeValue(u.access_token),
      "refresh_token" := EncodeValue(u.refresh_token),
      "expires_at" := EncodeValue(u.expires_at)])
  }

  /** User fields as Firestore writes them decode back to themselves. */
  lemma DecodeEncodeFireStoreUser(u: FireStoreUser)
    ensures DecodeFireStoreUser(EncodeFireStoreUser(u)) == Success(u)
  {
    DecodeEncodeValue(u.access_token);
    DecodeEncodeValue(u.refresh_token);
    DecodeEncodeValue(u.expires_at);
  }

  // ---------------------------------------------------------------------------
  // The user id: the last segment of the document name

  /** `seg` sits in `name` at `i`, bounded by `/` or the start on its left and
      followed by nothing but `/`: it is what `name.split(separator: "/").last`
      yields, since `split` drops empty segments. */
  predicate SegmentAt(name: string, seg: string, i: nat) {
    && i + |seg| <= |name|
    && name[i..i + |seg|] == seg
    && |seg| > 0
    && '/' !in seg
    && (i == 0 || name[i - 1] == '/')
    && forall k :: i + |seg| <= k < |name| ==> name[k] == '/'
  }

  predicate IsLastSegment(name: string, seg: string) {
    exists i: nat :: i <= |name| && SegmentAt(name, seg, i)
  }

  /** `name` with its trailing `/`s removed. */
  function TrimTrailing(name: string): (t: string)
    ensures t <= name
    ensures t == [] || t[|t| - 1] != '/'
    ensures forall k :: |t| <= k < |name| ==> name[k] == '/'
  {
    if name != [] && name[|name| - 1] == '/' then TrimTrailing(name[..|name| - 1]) else name
  }

  /** Where the longest `/`-free suffix of `t` begins. */
  function SuffixStart(t: string): (i: nat)
    ensures i <= |t|
    ensures '/' !in t[i..]
    ensures i == 0 || t[i - 1] == '/'
  {
    if t == [] || t[|t| - 1] == '/' then |t|
    else
      var i := SuffixStart(t[..|t| - 1]);
      assert t[i..] == t[..|t| - 1][i..] + [t[|t| - 1]];
      i
  }

  /** `user.name.split(separator: "/").last`. */
  function LastSegment(name: string): (r: Option<string>)
    ensures r.None? <==> forall k :: 0 <= k < |name| ==> name[k] == '/'
    ensures r.Some? ==> IsLastSegment(name, r.value)
  {
    var t := TrimTrailing(name);
    if t == [] then None
    else
      var i := SuffixStart(t);
      assert t[i..] == name[i..|t|];
      assert SegmentAt(name, t[i..], i);
      Some(t[i..])
  }

  /** A name has at most one last segment. */
  lemma LastSegmentUnique(name: string, a: string, b: string)
    requires IsLastSegment(name, a) && IsLastSegment(name, b)
    ensures a == b
  {
    var i: nat :| i <= |name| && SegmentAt(name, a, i);
    var j: nat :| j <= |name| && SegmentAt(name, b, j);
    SegmentHasNoSeparator(name, a, i);
    SegmentHasNoSeparator(name, b, j);
    // Both segments end where the trailing run of `/` begins ...
    assert name[i + |a| - 1] != '/' && name[j + |b| - 1] != '/';
    assert i + |a| == j + |b|;
    // ... and begin right after the last `/` before that point.
    assert i == j;
  }

  /** No character of a segment is `/`. */
  lemma SegmentHasNoSeparator(name: string, seg: string, i: nat)
    requires SegmentAt(name, seg, i)
    ensures forall k :: i <= k < i + |seg| ==> name[k] != '/'
  {
    forall k | i <= k < i + |seg|
      ensures name[k] != '/'
    {
      assert name[k] == name[i..i + |seg|][k - i] == seg[k - i];
      assert seg[k - i] in seg;
    }
  }

  /** A path ending in a `/`-free id, followed by any number of `/`, names that id. */
  lemma LastSegmentOfPath(path: string, id: string, trail: string)
    requires path == [] || path[|path| - 1] == '/'
    requires |id| > 0 && '/' !in id
    requires forall k :: 0 <= k < |trail| ==> trail[k] == '/'
    ensures LastSegment(path + id + trail) == Some(id)
  {
    var name := path + id + trail;
    assert name[|path|..|path| + |id|] == id;
    assert forall k :: |path| + |id| <= k < |name| ==> name[k] == trail[k - |path| - |id|];
    assert SegmentAt(name, id, |path|);
    assert name[|path| + |id| - 1] == id[|id| - 1];
    LastSegmentUnique(name, LastSegment(name).value, id);
  }

  // ---------------------------------------------------------------------------
  // Documents to users

  /** `toUser`: the id, then the access token, the refresh token and the expiry
      are checked in that order, and the first problem is the error. */
  function ToUser(doc: ListDocument<FireStoreUser>, parseDate: string -> Option<Date>): (r: Result<User>)
    ensures LastSegment(doc.name).None? ==> r == Failure(UnexpectedName(doc.name))
    ensures LastSegment(doc.name).Some? && !doc.fields.access_token.StringValue? ==>
      r == Failure(UnexpectedType("access token"))
    ensures (LastSegment(doc.name).Some? && doc.fields.access_token.StringValue? &&
             !doc.fields.refresh_token.StringValue?) ==>
      r == Failure(UnexpectedType("refresh token"))
    ensures (LastSegment(doc.name).Some? && doc.fields.access_token.StringValue? &&
             doc.fields.refresh_token.StringValue? && !doc.fields.expires_at.TimestampValue?) ==>
      r == Failure(UnexpectedType("expires at"))
    // a document that passes every check, with an expiry the parser reads, converts
    ensures r.Success? <==>
      && LastSegment(doc.name).Some?
      && doc.fields.access_token.StringValue? && doc.fields.refresh_token.StringValue?
      && doc.fields.expires_at.TimestampValue? && parseDate(doc.fields.expires_at.timestampValue).Some?
    ensures r.Success? ==>
      && LastSegment(doc.name) == Some(r.value.id)
      && IsLastSegment(doc.name, r.value.id)
      && doc.fields.access_token == StringValue(r.value.accessToken)
      && doc.fields.refresh_token == StringValue(r.value.refreshAccessToken)
      && doc.fields.expires_at.TimestampValue?
      && parseDate(doc.fields.expires_at.timestampValue) == Some(r.value.expiresAt)
  {
    match LastSegment(doc.name)
    case None => Failure(UnexpectedName(doc.name))
    case Some(id) =>
      if !doc.fields.access_token.StringValue? then Failure(UnexpectedType("access token"))
      else if !doc.fields.refresh_token.StringValue? then Failure(UnexpectedType("refresh token"))
      else if !doc.fields.expires_at.TimestampValue? then Failure(UnexpectedType("expires at"))
      else
        var expiresAt := doc.fields.expires_at.timestampValue;
        match parseDate(expiresAt)
        case None => Failure(InvalidDateFormat(expiresAt))
        case Some(date) =>
          Success(User(id, doc.fields.access_token.stringValue, doc.fields.refresh_token.stringValue, date))
  }

  /** A well-formed document whose expiry the parser rejects fails with that expiry text, unchanged. */
  lemma ToUserInvalidDate(doc: ListDocument<FireStoreUser>, parseDate: string -> Option<Date>)
    requires LastSegment(doc.name).Some?
    requires doc.fields.access_token.StringValue? && doc.fields.refresh_token.StringValue?
    requires doc.fields.expires_at.TimestampValue? && parseDate(doc.fields.expires_at.timestampValue).None?
    ensures ToUser(doc, parseDate) == Failure(InvalidDateFormat(doc.fields.expires_at.timestampValue))
  {
  }

  /** The document Firestore holds for a user under the collection path `path`. */
  function UserDocument(u: User, path: string, formatDate: Date -> string): ListDocument<FireStoreUser> {
    ListDocument(path + u.id, FireStoreUser(
      StringValue(u.accessToken), StringValue(u.refreshAccessToken), TimestampValue(formatDate(u.expiresAt))))
  }

  /** A user stored under a `/`-free id, with an expiry the parser reads back,
      converts back to the same user. */
  lemma ToUserOfUserDocument(u: User, path: string, formatDate: Date -> string, parseDate: string -> Option<Date>)
    requires path == [] || path[|path| - 1] == '/'
    requires |u.id| > 0 && '/' !in u.id
    requires parseDate(formatDate(u.expiresAt)) == Some(u.expiresAt)
    ensures ToUser(UserDocument(u, path, formatDate), parseDate) == Success(u)
  {
    LastSegmentOfPath(path, u.id, []);
    assert path + u.id + [] == path + u.id;
  }

  // ---------------------------------------------------------------------------
  // Pages

  /** The users of one page and the token of the next. */
  datatype Page = Page(users: seq<User>, token: Option<string>)

  /** `getUsers`: the list response for the current token, with every document
      converted; one document that does not convert fails the page. */
  function GetUsers(response: ListResponse<FireStoreUser>, parseDate: string -> Option<Date>): (r: Result<Page>)
    ensures response.ListError? ==> r == Failure(response.error)
    ensures response.Response? ==>
      (r.Success? <==> forall i :: 0 <= i < |response.response.documents| ==>
        ToUser(response.response.documents[i], parseDate).Success?)
    ensures r.Success? ==>
      && response.Response?
      && (r.value.token.Some? <==> response.response.IsAnotherPageAvailable())
      && r.value.token == response.response.nextPageToken
      && |r.value.users| == |response.response.documents|
      && forall i :: 0 <= i < |r.value.users| ==>
        ToUser(response.response.documents[i], parseDate) == Success(r.value.users[i])
  {
    match response
    case ListError(e) => Failure(e)
    case Response(page) =>
      match MapAll(page.documents, (d: ListDocument<FireStoreUser>) => ToUser(d, parseDate))
      case Failure(e) => Failure(e)
      case Success(users) => Success(Page(users, page.nextPageToken))
  }

  // ---------------------------------------------------------------------------
  // The sequence

  /** `FireStoreUserSequence`'s state: the current page token, the current
      page's users, how many of them were handed out, and whether no user has
      been handed out yet. */
  datatype UserSequence = UserSequence(token: Option<string>, users: seq<User>, count: nat, firstCall: bool)

  const Start: UserSequence := UserSequence(None, [], 0, true)

  /** `AsWritten` is the iterator as it stands; `Corrected` also clears
      `firstCall` when a page arrives, so that a missing token on any fetched
      page ends the sequence (see `EmptyLastPageRestarts`). */
  datatype Revision = AsWritten | Corrected

  /** `updatePage`, after a successful fetch. */
  function UpdatePage(rev: Revision, s: UserSequence, page: Page): (s': UserSequence)
    ensures s'.users == page.users && s'.token == page.token && s'.count == 0
    ensures rev == AsWritten ==> s'.firstCall == s.firstCall
    ensures rev == Corrected ==> !s'.firstCall
  {
    UserSequence(page.token, page.users, 0, rev == AsWritten && s.firstCall)
  }

  /** The outcome of one call of `next()`: the user returned (None for nil), the
      state after the call, the page tokens sent to `list` in order, and the
      fetches not yet made. The client is given as the outcomes of successive
      `getUsers()` calls, one per request; `OutOfScript` means they ran out
      while a request was pending. */
  datatype Pull =
    | Pull(user: Option<User>, state: UserSequence, requests: seq<Option<string>>, rest: seq<Result<Page>>)
    | OutOfScript(requests: seq<Option<string>>)

  /** `FireStoreUserSequence.next()`. */
  function Next(rev: Revision, s: UserSequence, fetches: seq<Result<Page>>): (r: Pull)
    // a user left on the page is handed out without fetching
    ensures s.count < |s.users| ==>
      r == Pull(Some(s.users[s.count]), s.(count := s.count + 1, firstCall := false), [], fetches)
    // a used-up page without a token ends the sequence once a user was handed out
    ensures s.count >= |s.users| && !s.firstCall && s.token.None? ==> r == Pull(None, s, [], fetches)
    // every request consumes one fetch and the first sends the current token
    // (NextRequestsFollowFetches: each later one sends the token of the page just fetched)
    ensures r.Pull? ==> |r.requests| <= |fetches| && r.rest == fetches[|r.requests|..]
    ensures r.OutOfScript? ==> |r.requests| == |fetches| + 1
    ensures |r.requests| > 0 ==> r.requests[0] == s.token
    // a failed fetch ends the sequence and leaves the state as it was
    ensures (s.count >= |s.users| && (s.firstCall || s.token.Some?) && fetches != [] && fetches[0].Failure?) ==>
      r == Pull(None, s, [s.token], fetches[1..])
    // a user handed out after fetching comes first on the last page fetched
    ensures r.Pull? && r.user.Some? && |r.requests| > 0 ==>
      && fetches[|r.requests| - 1].Success?
      && var page := fetches[|r.requests| - 1].value;
         |page.users| > 0 && r.state == UserSequence(page.token, page.users, 1, false) && r.user.value == page.users[0]
    decreases |fetches|
  {
    if s.count < |s.users| then
      Pull(Some(s.users[s.count]), s.(count := s.count + 1, firstCall := false), [], fetches)
    else if !(s.firstCall || s.token.Some?) then Pull(None, s, [], fetches)
    else if fetches == [] then OutOfScript([s.token])
    else match fetches[0]
      case Failure(_) => Pull(None, s, [s.token], fetches[1..])
      case Success(page) =>
        var inner := Next(rev, UpdatePage(rev, s, page), fetches[1..]);
        var requests := [s.token] + inner.requests;
        match inner
        case OutOfScript(_) => OutOfScript(requests)
        case Pull(user, state, _, rest) => Pull(user, state, requests, rest)
  }

  /** Every request but the last follows a successful fetch, and each request
      after the first sends the token of the page the previous one fetched. */
  lemma {:induction false} NextRequestsFollowFetches(rev: Revision, s: UserSequence, fetches: seq<Result<Page>>)
    ensures forall i :: 0 <= i < |Next(rev, s, fetches).requests| - 1 ==> fetches[i].Success?
    ensures forall i :: 1 <= i < |Next(rev, s, fetches).requests| ==>
      Next(rev, s, fetches).requests[i] == fetches[i - 1].value.token
    decreases |fetches|
  {
    if s.count < |s.users| || !(s.firstCall || s.token.Some?) || fetches == [] || fetches[0].Failure? {
    } else {
      var r := Next(rev, s, fetches);
      var s' := UpdatePage(rev, s, fetches[0].value);
      var inner := Next(rev, s', fetches[1..]);
      NextRequestsFollowFetches(rev, s', fetches[1..]);
      assert r.requests == [s.token] + inner.requests;
      forall i | 1 <= i < |r.requests| - 1
        ensures fetches[i].Success?
      {
        assert fetches[i] == fetches[1..][i - 1];
      }
      forall i | 1 <= i < |r.requests|
        ensures r.requests[i] == fetches[i - 1].value.token
      {
        assert r.requests[i] == inner.requests[i - 1];
        if i > 1 {
          assert fetches[i - 1] == fetches[1..][i - 2];
        }
      }
    }
  }

  /** What iterating the sequence until `next()` returns nil yields, which
      tokens it sends, and whether it finished within the given fetches. */
  datatype Drained = Drained(users: seq<User>, requests: seq<Option<string>>, complete: bool)

  function Drain(rev: Revision, s: UserSequence, fetches: seq<Result<Page>>): (d: Drained)
    decreases |fetches|, |s.users| - s.count
  {
    var r := Next(rev, s, fetches);
    if r.OutOfScript? then Drained([], r.requests, false)
    else if r.user.None? then Drained([], r.requests, true)
    else
      var d := Drain(rev, r.state, r.rest);
      Drained([r.user.value] + d.users, r.requests + d.requests, d.complete)
  }

  /** The fetches a client makes when it answers the i-th request with `responses[i]`. */
  function FetchesOf(responses: seq<ListResponse<FireStoreUser>>, parseDate: string -> Option<Date>): (f: seq<Result<Page>>)
    ensures |f| == |responses|
    ensures forall i :: 0 <= i < |f| ==> f[i] == GetUsers(responses[i], parseDate)
  {
    seq(|responses|, i requires 0 <= i < |responses| => GetUsers(responses[i], parseDate))
  }

  // ---------------------------------------------------------------------------
  // Walking a whole collection

  /** The fetches are a collection's pages in order: all succeed, every page but
      the last carries a next-page token, the last carries none. */
  predicate Chained(fetches: seq<Result<Page>>) {
    && |fetches| > 0
    && (forall i :: 0 <= i < |fetches| ==> fetches[i].Success?)
    && (forall i :: 0 <= i < |fetches| - 1 ==> fetches[i].value.token.Some?)
    && fetches[|fetches| - 1].value.token.None?
  }

  /** The users of all pages, page after page. */
  function UsersOf(pages: seq<Result<Page>>): seq<User>
    requires forall i :: 0 <= i < |pages| ==> pages[i].Success?
  {
    if pages == [] then [] else pages[0].value.users + UsersOf(pages[1..])
  }

  /** The next-page tokens of all pages, in order. */
  function TokensOf(pages: seq<Result<Page>>): seq<Option<string>>
    requires forall i :: 0 <= i < |pages| ==> pages[i].Success?
  {
    if pages == [] then [] else [pages[0].value.token] + TokensOf(pages[1..])
  }

  /** Draining from a state whose page is used up goes through the fetch: the
      request for the current token comes first, then whatever draining the
      fetched page does. */
  lemma DrainAfterFetch(rev: Revision, s: UserSequence, fetches: seq<Result<Page>>)
    requires s.count >= |s.users| && (s.firstCall || s.token.Some?)
    requires fetches != [] && fetches[0].Success?
    ensures var d' := Drain(rev, UpdatePage(rev, s, fetches[0].value), fetches[1..]);
      Drain(rev, s, fetches) == d'.(requests := [s.token] + d'.requests)
  {
    var r' := Next(rev, UpdatePage(rev, s, fetches[0].value), fetches[1..]);
    if r'.Pull? && r'.user.Some? {
      var d := Drain(rev, r'.state, r'.rest);
      AppendAssoc([s.token], r'.requests, d.requests);
    }
  }


  /** Draining from a state with a user left on its page hands that user out first. */
  lemma DrainYields(rev: Revision, s: UserSequence, fetches: seq<Result<Page>>)
    requires s.count < |s.users|
    ensures var d' := Drain(rev, s.(count := s.count + 1, firstCall := false), fetches);
      Drain(rev, s, fetches) == d'.(users := [s.users[s.count]] + d'.users)
  {
    var r := Next(rev, s, fetches);
    assert r == Pull(Some(s.users[s.count]), s.(count := s.count + 1, firstCall := false), [], fetches);
  }

  /** The pages after the first of a chain form a chain again. */
  lemma ChainedTail(fetches: seq<Result<Page>>)
    requires Chained(fetches) && |fetches| > 1
    ensures Chained(fetches[1..])
    ensures fetches[0].value.token.Some?
    ensures TokensOf(fetches[..|fetches| - 1]) == [fetches[0].value.token] + TokensOf(fetches[1..][..|fetches| - 2])
  {
    var n := |fetches|;
    assert fetches[..n - 1][1..] == fetches[1..][..n - 2];
  }

  /** Draining a state with no first call pending, or with a user still left on
      its page, over the pages that follow it. Both revisions agree here: they
      differ only while `firstCall` is set on a used-up page. */
  lemma {:induction false} DrainFrom(rev: Revision, s: UserSequence, fetches: seq<Result<Page>>)
    requires s.count <= |s.users| && (!s.firstCall || s.count < |s.users|)
    requires s.token.None? ==> fetches == []
    requires s.token.Some? ==> Chained(fetches)
    ensures forall i :: 0 <= i < |fetches| ==> fetches[i].Success?
    ensures Drain(rev, s, fetches) == Drained(
      s.users[s.count..] + UsersOf(fetches),
      if fetches == [] then [] else [s.token] + TokensOf(fetches[..|fetches| - 1]),
      true)
    decreases |fetches|, |s.users| - s.count, 1
  {
    if s.count < |s.users| {
      DrainFromPage(rev, s, fetches);
    } else if s.token.Some? {
      DrainFromFetch(rev, s, fetches);
    } else {
      assert Next(rev, s, fetches) == Pull(None, s, [], fetches);
    }
  }

  /** The step of `DrainFrom` that hands out a user left on the page. */
  lemma {:induction false} DrainFromPage(rev: Revision, s: UserSequence, fetches: seq<Result<Page>>)
    requires s.count < |s.users|
    requires s.token.None? ==> fetches == []
    requires s.token.Some? ==> Chained(fetches)
    ensures Drain(rev, s, fetches) == Drained(
      s.users[s.count..] + UsersOf(fetches),
      if fetches == [] then [] else [s.token] + TokensOf(fetches[..|fetches| - 1]),
      true)
    decreases |fetches|, |s.users| - s.count, 0
  {
    var s1 := s.(count := s.count + 1, firstCall := false);
    DrainFrom(rev, s1, fetches);
    DrainYields(rev, s, fetches);
    assert s.users[s.count..] == [s.users[s.count]] + s1.users[s1.count..];
    AppendAssoc([s.users[s.count]], s1.users[s1.count..], UsersOf(fetches));
  }

  /** The fetching step of `DrainFrom`. */
  lemma {:induction false} DrainFromFetch(rev: Revision, s: UserSequence, fetches: seq<Result<Page>>)
    requires !s.firstCall && s.count == |s.users|
    requires s.token.Some? && Chained(fetches)
    ensures Drain(rev, s, fetches) == Drained(
      UsersOf(fetches), [s.token] + TokensOf(fetches[..|fetches| - 1]), true)
    decreases |fetches|, 0, 0
  {
    var page := fetches[0].value;
    var s' := UpdatePage(rev, s, page);
    var tail := fetches[1..];
    assert s' == UserSequence(page.token, page.users, 0, false);
    DrainAfterFetch(rev, s, fetches);
    if |fetches| > 1 {
      ChainedTail(fetches);
    }
    DrainFrom(rev, s', tail);
    assert s'.users[s'.count..] == page.users;
  }

  /** Walking a whole collection with the corrected iterator: it sends no token
      first and then each page's token in turn, hands out every user of every
      page in page order, and ends after the page without a token. */
  lemma DrainReadsEveryPage(fetches: seq<Result<Page>>)
    requires Chained(fetches)
    ensures Drain(Corrected, Start, fetches) == Drained(
      UsersOf(fetches), [None] + TokensOf(fetches[..|fetches| - 1]), true)
  {
    var page := fetches[0].value;
    var s' := UpdatePage(Corrected, Start, page);
    var tail := fetches[1..];
    assert s' == UserSequence(page.token, page.users, 0, false);
    DrainAfterFetch(Corrected, Start, fetches);
    if |fetches| > 1 {
      ChainedTail(fetches);
    }
    DrainFrom(Corrected, s', tail);
    assert s'.users[s'.count..] == page.users;
  }

  /** Walking a collection that holds at least one user with the iterator as
      written gives the same walk as the corrected one: every user of every
      page in page order, no token first and then each page's token, and an end. */
  lemma AsWrittenReadsEveryPage(fetches: seq<Result<Page>>)
    requires Chained(fetches) && UsersOf(fetches) != []
    ensures Drain(AsWritten, Start, fetches) == Drained(
      UsersOf(fetches), [None] + TokensOf(fetches[..|fetches| - 1]), true)
    ensures Drain(AsWritten, Start, fetches) == Drain(Corrected, Start, fetches)
  {
    AsWrittenFirstCall(Start, fetches);
    DrainReadsEveryPage(fetches);
  }

  /** The iterator as written, from a used-up page while no user has been
      handed out, over a chain of pages holding some user. */
  lemma {:induction false} AsWrittenFirstCall(s: UserSequence, fetches: seq<Result<Page>>)
    requires s.firstCall && s.count >= |s.users|
    requires Chained(fetches) && UsersOf(fetches) != []
    ensures Drain(AsWritten, s, fetches) == Drained(
      UsersOf(fetches), [s.token] + TokensOf(fetches[..|fetches| - 1]), true)
    decreases |fetches|
  {
    if |fetches[0].value.users| > 0 {
      AsWrittenFirstPageYields(s, fetches);
    } else {
      ChainedTail(fetches);
      AsWrittenFirstCall(UpdatePage(AsWritten, s, fetches[0].value), fetches[1..]);
      AsWrittenFirstPageEmpty(s, fetches);
    }
  }

  /** `AsWrittenFirstCall` when the first page fetched is empty, given the
      claim for the remaining pages: the flag stays set and the walk goes on. */
  lemma AsWrittenFirstPageEmpty(s: UserSequence, fetches: seq<Result<Page>>)
    requires s.firstCall && s.count >= |s.users|
    requires Chained(fetches) && UsersOf(fetches) != [] && |fetches[0].value.users| == 0
    requires |fetches| > 1 && Chained(fetches[1..])
    requires var tail := fetches[1..];
      Drain(AsWritten, UpdatePage(AsWritten, s, fetches[0].value), tail)
        == Drained(UsersOf(tail), [fetches[0].value.token] + TokensOf(tail[..|tail| - 1]), true)
    ensures Drain(AsWritten, s, fetches) == Drained(
      UsersOf(fetches), [s.token] + TokensOf(fetches[..|fetches| - 1]), true)
  {
    var tail := fetches[1..];
    var d' := Drain(AsWritten, UpdatePage(AsWritten, s, fetches[0].value), tail);
    assert Drain(AsWritten, s, fetches) == d'.(requests := [s.token] + d'.requests) by {
      DrainAfterFetch(AsWritten, s, fetches);
    }
    assert TokensOf(fetches[..|fetches| - 1]) == [fetches[0].value.token] + TokensOf(tail[..|tail| - 1]) by {
      ChainedTail(fetches);
      assert tail[..|tail| - 1] == fetches[1..][..|fetches| - 2];
    }
    assert UsersOf(fetches) == UsersOf(tail) by {
      UsersOfSkipsEmptyPage(fetches);
    }
    PrependToken(Drain(AsWritten, s, fetches), d', s.token,
      UsersOf(fetches), TokensOf(fetches[..|fetches| - 1]));
  }

  lemma UsersOfSkipsEmptyPage(pages: seq<Result<Page>>)
    requires pages != [] && forall i :: 0 <= i < |pages| ==> pages[i].Success?
    requires pages[0].value.users == []
    ensures UsersOf(pages) == UsersOf(pages[1..])
  {
  }

  /** Putting a request in front of a drain known from its tail. */
  lemma PrependToken(d: Drained, d': Drained, token: Option<string>, users: seq<User>, tokens: seq<Option<string>>)
    requires d == d'.(requests := [token] + d'.requests)
    requires d'.users == users && d'.requests == tokens && d'.complete
    ensures d == Drained(users, [token] + tokens, true)
  {
  }

  /** `AsWrittenFirstCall` when the first page fetched holds a user: from there
      on the flag is cleared and both revisions walk alike. */
  lemma AsWrittenFirstPageYields(s: UserSequence, fetches: seq<Result<Page>>)
    requires s.firstCall && s.count >= |s.users|
    requires Chained(fetches) && |fetches[0].value.users| > 0
    ensures Drain(AsWritten, s, fetches) == Drained(
      UsersOf(fetches), [s.token] + TokensOf(fetches[..|fetches| - 1]), true)
  {
    var page := fetches[0].value;
    var s' := UpdatePage(AsWritten, s, page);
    var tail := fetches[1..];
    assert s' == UserSequence(page.token, page.users, 0, true);
    DrainAfterFetch(AsWritten, s, fetches);
    if |fetches| > 1 {
      ChainedTail(fetches);
    }
    DrainFrom(AsWritten, s', tail);
    assert s'.users[s'.count..] == page.users;
  }

  /** The iterator as written never ends on a collection without users: it
      fetches every page, then asks for the first page again, for as many
      fetches as it is given. */
  lemma {:induction false} AsWrittenEmptyNeverEnds(s: UserSequence, fetches: seq<Result<Page>>)
    requires s.firstCall && s.count >= |s.users|
    requires forall i :: 0 <= i < |fetches| ==> fetches[i].Success?
    requires UsersOf(fetches) == []
    ensures Drain(AsWritten, s, fetches) == Drained([], [s.token] + TokensOf(fetches), false)
    decreases |fetches|
  {
    if fetches == [] {
      assert Next(AsWritten, s, fetches) == OutOfScript([s.token]);
    } else {
      var page := fetches[0].value;
      var s' := UpdatePage(AsWritten, s, page);
      assert s' == UserSequence(page.token, page.users, 0, true);
      DrainAfterFetch(AsWritten, s, fetches);
      AsWrittenEmptyNeverEnds(s', fetches[1..]);
    }
  }

  /** The iterator as written keeps `firstCall` set until it hands out a user,
      so after a first page that is empty and carries no token it asks for the
      first page again, and again: here it never returns nil. */
  lemma EmptyLastPageRestarts(parseDate: string -> Option<Date>)
    ensures var empty: ListResponse<FireStoreUser> := Response(ListHTTPResponse([], None));
      var fetches := FetchesOf([empty, empty], parseDate);
      && Drain(AsWritten, Start, fetches) == Drained([], [None, None, None], false)
      && Drain(Corrected, Start, fetches) == Drained([], [None], true)
  {
    var empty: ListResponse<FireStoreUser> := Response(ListHTTPResponse([], None));
    var page := Page([], None);
    assert GetUsers(empty, parseDate) == Success(page);
    var fetches := FetchesOf([empty, empty], parseDate);
    assert fetches == [Success(page), Success(page)];
    TwoEmptyPagesAsWritten();
    TwoEmptyPagesCorrected();
  }

  /** As written, the fetched page leaves the state exactly as it started. */
  lemma TwoEmptyPagesAsWritten()
    ensures var empty := Success(Page([], None));
      Drain(AsWritten, Start, [empty, empty]) == Drained([], [None, None, None], false)
  {
    var fetches := [Success(Page([], None)), Success(Page([], None))];
    assert fetches[1..] == [fetches[0]] && fetches[1..][1..] == [];
    assert UsersOf(fetches) == [];
    assert TokensOf(fetches) == [None, None];
    AsWrittenEmptyNeverEnds(Start, fetches);
  }

  /** Corrected, the fetched page clears the flag and its missing token ends the walk. */
  lemma TwoEmptyPagesCorrected()
    ensures var empty := Success(Page([], None));
      Drain(Corrected, Start, [empty, empty]) == Drained([], [None], true)
  {
    var page := Page([], None);
    var fixed := UpdatePage(Corrected, Start, page);
    assert [Success(page), Success(page)][1..] == [Success(page)];
    assert Next(Corrected, fixed, [Success(page)]) == Pull(None, fixed, [], [Success(page)]);
    assert Next(Corrected, Start, [Success(page), Success(page)]) == Pull(None, fixed, [None], [Success(page)]);
  }
}
