/** Wilt users read from the `WiltUsers` DynamoDB table.

`getUsers` scans the table and turns every item into a `User`: the id and both
tokens must be string attributes and the expiry a number attribute whose text
reads as a number of seconds since Foundation's reference date (1 January
2001). Any item that does not fit, or a scan without items, fails the whole
call with `unexpectedFailure`.
 */
module DynamoUsers {
  import opened Outcomes
  import opened WiltCore

  const UserTable: string := "WiltUsers"

  /** Seconds from 1 January 1970 to 1 January 2001, Foundation's reference date. */
  const ReferenceDateOffset: TimeInterval := 978307200.0

  /** A DynamoDB attribute value, reduced to the two members read here: the
      string member `s` and the number member `n` (numbers travel as text). */
  datatype AttributeValue = AttributeValue(s: Option<string>, n: Option<string>)

  type Item = map<string, AttributeValue>

  /** The keys `getUsers` reads. */
  const UserKeys: set<string> := {"id", "access_token", "refresh_token", "expires_at"}

  /** `item[key]?.s`. */
  function StringAttribute(item: Item, key: string): (v: Option<string>)
    ensures v.Some? <==> key in item && item[key].s.Some?
    ensures v.Some? ==> v == item[key].s
  {
    if key in item then item[key].s else None
  }

  /** `item[key]?.n`. */
  function NumberAttribute(item: Item, key: string): (v: Option<string>)
    ensures v.Some? <==> key in item && item[key].n.Some?
    ensures v.Some? ==> v == item[key].n
  {
    if key in item then item[key].n else None
  }

  /** The item has every attribute `getUsers` needs, with an expiry that reads as a number. */
  predicate WellFormed(item: Item, parseDouble: string -> Option<real>) {
    && StringAttribute(item, "id").Some?
    && StringAttribute(item, "access_token").Some?
    && StringAttribute(item, "refresh_token").Some?
    && NumberAttribute(item, "expires_at").Some?
    && parseDouble(NumberAttribute(item, "expires_at").value).Some?
  }

  /** The closure `getUsers` maps over the scanned items; `parseDouble` is
      `Double(String)`. */
  function ItemToUser(item: Item, parseDouble: string -> Option<real>): (r: Result<User>)
    ensures r.Success? <==> WellFormed(item, parseDouble)
    ensures r.Failure? ==> r.error == UnexpectedFailure
    // the strings are copied unchanged; the expiry counts from 2001
    ensures r.Success? ==>
      && Some(r.value.id) == StringAttribute(item, "id")
      && Some(r.value.accessToken) == StringAttribute(item, "access_token")
      && Some(r.value.refreshAccessToken) == StringAttribute(item, "refresh_token")
      && parseDouble(NumberAttribute(item, "expires_at").value)
         == Some(r.value.expiresAt.timeIntervalSince1970 - ReferenceDateOffset)
  {
    match (StringAttribute(item, "id"), StringAttribute(item, "access_token"),
           StringAttribute(item, "refresh_token"), NumberAttribute(item, "expires_at"))
    case (Some(id), Some(accessToken), Some(refreshAccessToken), Some(expiresAt)) =>
      (match parseDouble(expiresAt)
       case None => Failure(UnexpectedFailure)
       case Some(interval) =>
         Success(User(id, accessToken, refreshAccessToken, Date(interval + ReferenceDateOffset))))
    case _ => Failure(UnexpectedFailure)
  }

  /** The item a user is stored as; `formatDouble` writes a number as text. */
  function UserToItem(u: User, formatDouble: real -> string): Item {
    map[
      "id" := AttributeValue(Some(u.id), None),
      "access_token" := AttributeValue(Some(u.accessToken), None),
      "refresh_token" := AttributeValue(Some(u.refreshAccessToken), None),
      "expires_at" := AttributeValue(None, Some(formatDouble(u.expiresAt.timeIntervalSince1970 - ReferenceDateOffset)))]
  }

  /** A stored user whose expiry text reads back exactly converts back to the same user. */
  lemma ItemToUserOfUserToItem(u: User, formatDouble: real -> string, parseDouble: string -> Option<real>)
    requires var t := u.expiresAt.timeIntervalSince1970 - ReferenceDateOffset; parseDouble(formatDouble(t)) == Some(t)
    ensures ItemToUser(UserToItem(u, formatDouble), parseDouble) == Success(u)
  {
  }

  /** Attributes other than the four are never read. */
  lemma ItemToUserIgnoresOtherKeys(item: Item, key: string, v: AttributeValue, parseDouble: string -> Option<real>)
    requires key !in UserKeys
    ensures ItemToUser(item[key := v], parseDouble) == ItemToUser(item, parseDouble)
  {
    assert StringAttribute(item[key := v], "id") == StringAttribute(item, "id");
    assert StringAttribute(item[key := v], "access_token") == StringAttribute(item, "access_token");
    assert StringAttribute(item[key := v], "refresh_token") == StringAttribute(item, "refresh_token");
    assert NumberAttribute(item[key := v], "expires_at") == NumberAttribute(item, "expires_at");
  }

  /** An id stored as a number rather than a string is rejected. */
  lemma NumericIdRejected(item: Item, digits: string, parseDouble: string -> Option<real>)
    requires "id" in item && item["id"] == AttributeValue(None, Some(digits))
    ensures ItemToUser(item, parseDouble) == Failure(UnexpectedFailure)
  {
  }

  /** What the scan reports: an error (thrown by the SDK), or an output whose
      `items` may be absent. */
  datatype ScanOutput = ScanFailed(error: Error) | Scanned(items: Option<seq<Item>>)

  /** `getUsers()`, with the SDK's scan of a named table as a parameter. */
  function GetUsers(scan: string -> ScanOutput, parseDouble: string -> Option<real>): (r: Result<seq<User>>)
    ensures scan(UserTable).ScanFailed? ==> r == Failure(scan(UserTable).error)
    ensures scan(UserTable) == Scanned(None) ==> r == Failure(UnexpectedFailure)
    ensures scan(UserTable).Scanned? && r.Failure? ==> r.error == UnexpectedFailure
    // one user per item, in order, and only when every item converts
    ensures scan(UserTable).Scanned? && scan(UserTable).items.Some? ==>
      var items := scan(UserTable).items.value;
      && (r.Success? <==> forall i :: 0 <= i < |items| ==> WellFormed(items[i], parseDouble))
      && (r.Success? ==> |r.value| == |items|)
      && (r.Success? ==> forall i :: 0 <= i < |items| ==> ItemToUser(items[i], parseDouble) == Success(r.value[i]))
  {
    match scan(UserTable)
    case ScanFailed(e) => Failure(e)
    case Scanned(None) => Failure(UnexpectedFailure)
    case Scanned(Some(items)) =>
      var r := MapAll(items, (item: Item) => ItemToUser(item, parseDouble));
      assert r.Failure? ==> r.error == UnexpectedFailure by {
        if r.Failure? {
          var k := FirstFailure(items, (item: Item) => ItemToUser(item, parseDouble));
        }
      }
      r
  }

  /** A table holding the stored form of some users yields exactly those users, in scan order. */
  lemma GetUsersOfStoredUsers(
    users: seq<User>,
    scan: string -> ScanOutput,
    formatDouble: real -> string,
    parseDouble: string -> Option<real>
  )
    requires forall i :: 0 <= i < |users| ==>
      var t := users[i].expiresAt.timeIntervalSince1970 - ReferenceDateOffset; parseDouble(formatDouble(t)) == Some(t)
    requires scan(UserTable) == Scanned(Some(seq(|users|, i requires 0 <= i < |users| => UserToItem(users[i], formatDouble))))
    ensures GetUsers(scan, parseDouble) == Success(users)
  {
    var items := scan(UserTable).items.value;
    forall i | 0 <= i < |users|
      ensures ItemToUser(items[i], parseDouble) == Success(users[i])
    {
      ItemToUserOfUserToItem(users[i], formatDouble, parseDouble);
    }
    var r := GetUsers(scan, parseDouble);
    assert r.value == users;
  }
}
