/** The collector's domain model and its incremental update.

`Update` asks the database once for the time of the user's last stored play
(falling back to 0 when that fails), keeps the recently played records that
were played strictly later, hands them to the database in one insert, and
reports the insert's error, if any, to its completion handler.
 */
module WiltCore {
  import opened Outcomes

  /** Seconds, as Foundation's `TimeInterval`, read exactly (no rounding). */
  type TimeInterval = real

  /** Foundation's `Date`, by its distance from 1 January 1970. */
  datatype Date = Date(timeIntervalSince1970: TimeInterval)

  datatype Artist = Artist(name: string)
  datatype Track = Track(artists: seq<Artist>, id: string, name: string)
  datatype PlayRecord = PlayRecord(track: Track, playedAt: Date)

  datatype User = User(id: string, accessToken: string, refreshAccessToken: string, expiresAt: Date)

  /** One call of the database's `insert(items:user:)`. */
  datatype InsertCall = InsertCall(items: seq<PlayRecord>, user: User)

  /** What one run of `update` does: the users it asked the last-update time
      for, the inserts it made, and the argument of its completion handler. */
  datatype UpdateRun = UpdateRun(lastUpdateCalls: seq<User>, insertCalls: seq<InsertCall>, completion: Option<Error>)

  /** `a` is `b` with some elements dropped and the rest in their original order. */
  predicate IsSubsequence<T(==)>(a: seq<T>, b: seq<T>)
    decreases |b|
  {
    if a == [] then true
    else if b == [] then false
    else if a[0] == b[0] then IsSubsequence(a[1..], b[1..])
    else IsSubsequence(a, b[1..])
  }

  /** `(try? dao.getTimeOfLastUpdate(user: user)) ?? 0`. */
  function ThresholdOf(lastUpdate: Result<TimeInterval>): (t: TimeInterval)
    ensures lastUpdate.Failure? ==> t == 0.0
    ensures lastUpdate.Success? ==> t == lastUpdate.value
  {
    match lastUpdate
    case Success(t) => t
    case Failure(_) => 0.0
  }

  /** The records played strictly after `lastUpdate`, in their original order. */
  function PlayedAfter(records: seq<PlayRecord>, lastUpdate: TimeInterval): (r: seq<PlayRecord>)
    ensures |r| <= |records|
    ensures forall x :: x in r <==> x in records && x.playedAt.timeIntervalSince1970 > lastUpdate
  {
    if records == [] then []
    else
      var rest := PlayedAfter(records[1..], lastUpdate);
      if records[0].playedAt.timeIntervalSince1970 > lastUpdate then [records[0]] + rest else rest
  }

  /** `update(user:client:from:completionHandler:)`, with the database and the
      play-history client replaced by what they answer: `timeOfLastUpdate` for
      `getTimeOfLastUpdate`, `recentlyPlayed` for the records the client passes
      to its callback, and `insert` for the error `insert` throws (None when it
      returns normally). */
  function Update(
    user: User,
    timeOfLastUpdate: User -> Result<TimeInterval>,
    recentlyPlayed: seq<PlayRecord>,
    insert: (seq<PlayRecord>, User) -> Option<Error>
  ): (run: UpdateRun)
    ensures run.lastUpdateCalls == [user]
    ensures |run.insertCalls| == 1 && run.insertCalls[0].user == user
    ensures IsSubsequence(run.insertCalls[0].items, recentlyPlayed)
    ensures forall x :: x in run.insertCalls[0].items <==>
      x in recentlyPlayed && x.playedAt.timeIntervalSince1970 > ThresholdOf(timeOfLastUpdate(user))
    ensures forall x ::
              multiset(run.insertCalls[0].items)[x] ==
              if x.playedAt.timeIntervalSince1970 > ThresholdOf(timeOfLastUpdate(user)) then multiset(recentlyPlayed)[x] else 0
    ensures run.completion == insert(run.insertCalls[0].items, user)
  {
    var lastUpdate := ThresholdOf(timeOfLastUpdate(user));
    var filtered := PlayedAfter(recentlyPlayed, lastUpdate);
    PlayedAfterIsSubsequence(recentlyPlayed, lastUpdate);
    PlayedAfterCounts(recentlyPlayed, lastUpdate);
    UpdateRun([user], [InsertCall(filtered, user)], insert(filtered, user))
  }

  lemma SubsequenceOfTail<T>(a: seq<T>, b: seq<T>, x: T)
    requires IsSubsequence(a, b)
    ensures IsSubsequence(a, [x] + b)
    decreases |b|, 1
  {
    if a != [] && a[0] == x {
      SubsequenceDropHead(a, b);
      assert ([x] + b)[1..] == b;
    } else if a != [] {
      assert ([x] + b)[1..] == b;
    }
  }

  lemma {:induction false} SubsequenceDropHead<T>(a: seq<T>, b: seq<T>)
    requires a != [] && IsSubsequence(a, b)
    ensures IsSubsequence(a[1..], b)
    decreases |b|, 0
  {
    if a[0] != b[0] {
      SubsequenceDropHead(a, b[1..]);
    }
    if a[1..] != [] {
      SubsequenceOfTail(a[1..], b[1..], b[0]);
      assert [b[0]] + b[1..] == b;
    }
  }

  /** The inserted records keep the relative order they had in the play history. */
  lemma {:induction false} PlayedAfterIsSubsequence(records: seq<PlayRecord>, lastUpdate: TimeInterval)
    ensures IsSubsequence(PlayedAfter(records, lastUpdate), records)
    decreases |records|
  {
    if records != [] {
      var rest := PlayedAfter(records[1..], lastUpdate);
      PlayedAfterIsSubsequence(records[1..], lastUpdate);
      if records[0].playedAt.timeIntervalSince1970 > lastUpdate {
        assert ([records[0]] + rest)[1..] == rest;
      } else {
        SubsequenceOfTail(rest, records[1..], records[0]);
        assert [records[0]] + records[1..] == records;
      }
    }
  }

  /** A kept record keeps all its copies: repeated plays of the same track at
      the same time are all inserted. */
  lemma {:induction false} PlayedAfterCounts(records: seq<PlayRecord>, lastUpdate: TimeInterval)
    ensures forall x ::
              multiset(PlayedAfter(records, lastUpdate))[x] ==
              if x.playedAt.timeIntervalSince1970 > lastUpdate then multiset(records)[x] else 0
    decreases |records|
  {
    if records != [] {
      PlayedAfterCounts(records[1..], lastUpdate);
      assert records == [records[0]] + records[1..];
      assert multiset(records) == multiset([records[0]]) + multiset(records[1..]);
    }
  }

  /** Filtering distributes over concatenation: the filter looks at each record on its own. */
  lemma {:induction false} PlayedAfterConcat(a: seq<PlayRecord>, b: seq<PlayRecord>, lastUpdate: TimeInterval)
    ensures PlayedAfter(a + b, lastUpdate) == PlayedAfter(a, lastUpdate) + PlayedAfter(b, lastUpdate)
    decreases |a|
  {
    if a == [] {
      assert a + b == b;
    } else {
      PlayedAfterConcat(a[1..], b, lastUpdate);
      assert (a + b)[1..] == a[1..] + b;
      AppendAssoc([a[0]], PlayedAfter(a[1..], lastUpdate), PlayedAfter(b, lastUpdate));
    }
  }

  /** When every record is newer than the last update, all of them are inserted, in order. */
  lemma {:induction false} PlayedAfterKeepsNewer(records: seq<PlayRecord>, lastUpdate: TimeInterval)
    requires forall x :: x in records ==> x.playedAt.timeIntervalSince1970 > lastUpdate
    ensures PlayedAfter(records, lastUpdate) == records
    decreases |records|
  {
    if records != [] {
      assert forall x :: x in records[1..] ==> x in records;
      PlayedAfterKeepsNewer(records[1..], lastUpdate);
      assert [records[0]] + records[1..] == records;
    }
  }

  /** When no record is newer than the last update, nothing is inserted. */
  lemma {:induction false} PlayedAfterDropsOlder(records: seq<PlayRecord>, lastUpdate: TimeInterval)
    requires forall x :: x in records ==> x.playedAt.timeIntervalSince1970 <= lastUpdate
    ensures PlayedAfter(records, lastUpdate) == []
    decreases |records|
  {
    if records != [] {
      assert forall x :: x in records[1..] ==> x in records;
      PlayedAfterDropsOlder(records[1..], lastUpdate);
    }
  }

  /** A record played exactly at the last-update time is not inserted again. */
  lemma PlayedAtThresholdExcluded(
    user: User,
    timeOfLastUpdate: User -> Result<TimeInterval>,
    recentlyPlayed: seq<PlayRecord>,
    insert: (seq<PlayRecord>, User) -> Option<Error>,
    x: PlayRecord
  )
    requires x.playedAt.timeIntervalSince1970 == ThresholdOf(timeOfLastUpdate(user))
    ensures x !in Update(user, timeOfLastUpdate, recentlyPlayed, insert).insertCalls[0].items
  {
  }

  /** When the last-update time cannot be read, the threshold is 0: a history
      played after 1970 is inserted whole, in order. */
  lemma UpdateWithoutLastUpdate(
    user: User,
    timeOfLastUpdate: User -> Result<TimeInterval>,
    recentlyPlayed: seq<PlayRecord>,
    insert: (seq<PlayRecord>, User) -> Option<Error>
  )
    requires timeOfLastUpdate(user).Failure?
    requires forall x :: x in recentlyPlayed ==> x.playedAt.timeIntervalSince1970 > 0.0
    ensures Update(user, timeOfLastUpdate, recentlyPlayed, insert).insertCalls == [InsertCall(recentlyPlayed, user)]
  {
    PlayedAfterKeepsNewer(recentlyPlayed, 0.0);
  }

  /** A history made of newer records followed by older ones inserts exactly the newer ones. */
  lemma UpdateDropsOlder(
    user: User,
    timeOfLastUpdate: User -> Result<TimeInterval>,
    newer: seq<PlayRecord>,
    older: seq<PlayRecord>,
    insert: (seq<PlayRecord>, User) -> Option<Error>
  )
    requires timeOfLastUpdate(user).Success?
    requires forall x :: x in newer ==> x.playedAt.timeIntervalSince1970 > timeOfLastUpdate(user).value
    requires forall x :: x in older ==> x.playedAt.timeIntervalSince1970 <= timeOfLastUpdate(user).value
    ensures Update(user, timeOfLastUpdate, newer + older, insert).insertCalls == [InsertCall(newer, user)]
  {
    var t := timeOfLastUpdate(user).value;
    assert ThresholdOf(timeOfLastUpdate(user)) == t;
    PlayedAfterConcat(newer, older, t);
    PlayedAfterKeepsNewer(newer, t);
    PlayedAfterDropsOlder(older, t);
    assert PlayedAfter(newer + older, t) == newer;
  }
}
