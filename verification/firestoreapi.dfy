/** The Firestore REST client: field values, list responses and the list request.

A Firestore field value is a JSON object naming its type by key
(`{"stringValue": "..."}`); integers travel as decimal strings. The decoder
tries the keys in a fixed order and takes the first one whose payload it can
read. `list` asks for one page of a collection and maps the HTTP outcome to a
`ListResponse`.
 */
module FireStoreApi {
  import opened Outcomes
  import opened IntText
  import opened Json

  datatype FireStoreValue =
    | StringValue(stringValue: string)
    | BooleanValue(booleanValue: bool)
    | IntegerValue(integerValue: Int64)
    | DoubleValue(doubleValue: Number)
    | TimestampValue(timestampValue: string)
    | BytesValue(bytesValue: string)
    | ReferenceValue(referenceValue: string)

  /** The coding keys, in the order the decoder tries them. */
  const PriorityKeys: seq<string> :=
    ["stringValue", "booleanValue", "integerValue", "doubleValue", "timestampValue", "bytesValue", "referenceValue"]

  /** Position of a value's variant in `PriorityKeys`. */
  function Priority(v: FireStoreValue): (k: nat)
    ensures k < |PriorityKeys|
  {
    match v
    case StringValue(_) => 0
    case BooleanValue(_) => 1
    case IntegerValue(_) => 2
    case DoubleValue(_) => 3
    case TimestampValue(_) => 4
    case BytesValue(_) => 5
    case ReferenceValue(_) => 6
  }

  /** The coding key naming a value's variant. */
  function KeyOf(v: FireStoreValue): string {
    PriorityKeys[Priority(v)]
  }

  /** What `try? container.decode(_, forKey: key)` yields for one coding key:
      a String for the string-like keys, a Bool, a Double, and for
      `integerValue` a String that must also pass `Int(_)`. */
  function Attempt(key: string, payload: Json): Option<FireStoreValue> {
    match payload
    case JString(s) =>
      if key == "stringValue" then Some(StringValue(s))
      else if key == "integerValue" then
        (match ParseInt(s) case Some(i) => Some(IntegerValue(i)) case None => None)
      else if key == "timestampValue" then Some(TimestampValue(s))
      else if key == "bytesValue" then Some(BytesValue(s))
      else if key == "referenceValue" then Some(ReferenceValue(s))
      else None
    case JBool(b) => if key == "booleanValue" then Some(BooleanValue(b)) else None
    case JNumber(n) => if key == "doubleValue" then Some(DoubleValue(n)) else None
    case _ => None
  }

  /** The attempt for `key` on an object, nil when the key is absent. */
  function TryKey(fields: map<string, Json>, key: string): Option<FireStoreValue> {
    if key in fields then Attempt(key, fields[key]) else None
  }

  /** Reference reading: the first of `keys` whose attempt succeeds. */
  function FirstDecodable(fields: map<string, Json>, keys: seq<string>): Option<FireStoreValue> {
    if keys == [] then None
    else if TryKey(fields, keys[0]).Some? then TryKey(fields, keys[0])
    else FirstDecodable(fields, keys[1..])
  }

  /** `FireStoreValue.init(from:)`. */
  function DecodeValue(j: Json): (r: Result<FireStoreValue>)
    ensures r.Success? ==> j.JObject? && TryKey(j.fields, KeyOf(r.value)) == Some(r.value)
    ensures r.Success? ==> forall k :: 0 <= k < Priority(r.value) ==> TryKey(j.fields, PriorityKeys[k]).None?
    ensures j.JObject? && r.Failure? ==>
      r.error == ValueDecoding && forall k :: 0 <= k < |PriorityKeys| ==> TryKey(j.fields, PriorityKeys[k]).None?
    ensures !j.JObject? ==> r == Failure(if j.JNull? then ValueNotFound else TypeMismatch)
  {
    match Container(j)
    case Failure(e) => Failure(e)
    case Success(fields) =>
      if TryKey(fields, "stringValue").Some? then Success(TryKey(fields, "stringValue").value)
      else if TryKey(fields, "booleanValue").Some? then Success(TryKey(fields, "booleanValue").value)
      else if TryKey(fields, "integerValue").Some? then Success(TryKey(fields, "integerValue").value)
      else if TryKey(fields, "doubleValue").Some? then Success(TryKey(fields, "doubleValue").value)
      else if TryKey(fields, "timestampValue").Some? then Success(TryKey(fields, "timestampValue").value)
      else if TryKey(fields, "bytesValue").Some? then Success(TryKey(fields, "bytesValue").value)
      else if TryKey(fields, "referenceValue").Some? then Success(TryKey(fields, "referenceValue").value)
      else Failure(ValueDecoding)
  }

  /** The payload Firestore sends for a value: integers as decimal text. */
  function Payload(v: FireStoreValue): Json {
    match v
    case StringValue(s) => JString(s)
    case BooleanValue(b) => JBool(b)
    case IntegerValue(i) => JString(FormatInt(i))
    case DoubleValue(n) => JNumber(n)
    case TimestampValue(s) => JString(s)
    case BytesValue(s) => JString(s)
    case ReferenceValue(s) => JString(s)
  }

  /** A value as Firestore writes it: an object with the one key naming its variant. */
  function EncodeValue(v: FireStoreValue): Json {
    JObject(map[KeyOf(v) := Payload(v)])
  }

  /** Every value Firestore writes decodes back to itself. */
  lemma DecodeEncodeValue(v: FireStoreValue)
    ensures DecodeValue(EncodeValue(v)) == Success(v)
  {
    if v.IntegerValue? {
      ParseFormatInt(v.integerValue);
    }
  }

  /** The decoder picks the first key, in priority order, whose payload it can read. */
  lemma DecodeValueIsFirstDecodable(fields: map<string, Json>)
    ensures DecodeValue(JObject(fields)) ==
      (match FirstDecodable(fields, PriorityKeys) case Some(v) => Success(v) case None => Failure(ValueDecoding))
  {
    var ks := PriorityKeys;
    assert ks[7..] == [];
    assert ks[6..][1..] == ks[7..] && ks[6] == "referenceValue";
    assert FirstDecodableStep(fields, ks, 6);
    assert ks[5..][1..] == ks[6..] && ks[5] == "bytesValue";
    assert FirstDecodableStep(fields, ks, 5);
    assert ks[4..][1..] == ks[5..] && ks[4] == "timestampValue";
    assert FirstDecodableStep(fields, ks, 4);
    assert ks[3..][1..] == ks[4..] && ks[3] == "doubleValue";
    assert FirstDecodableStep(fields, ks, 3);
    assert ks[2..][1..] == ks[3..] && ks[2] == "integerValue";
    assert FirstDecodableStep(fields, ks, 2);
    assert ks[1..][1..] == ks[2..] && ks[1] == "booleanValue";
    assert FirstDecodableStep(fields, ks, 1);
    assert ks[0..][1..] == ks[1..] && ks[0] == "stringValue";
    assert FirstDecodableStep(fields, ks, 0);
    assert ks[0..] == ks;
  }

  /** One step of the reference reading, on a suffix of the keys. */
  predicate FirstDecodableStep(fields: map<string, Json>, keys: seq<string>, i: nat)
    requires i < |keys|
  {
    FirstDecodable(fields, keys[i..]) ==
      if TryKey(fields, keys[i]).Some? then TryKey(fields, keys[i]) else FirstDecodable(fields, keys[i + 1..])
  }

  /** A key whose payload is of the wrong type is passed over, as if it were absent. */
  lemma DecodeValueSkipsUnreadable(fields: map<string, Json>, key: string)
    requires key in fields && Attempt(key, fields[key]).None?
    ensures DecodeValue(JObject(fields)) == DecodeValue(JObject(fields - {key}))
  {
    assert forall k :: TryKey(fields, k) == TryKey(fields - {key}, k);
  }

  /** A key the decoder does not know changes nothing. */
  lemma DecodeValueIgnoresUnknownKeys(fields: map<string, Json>, key: string, payload: Json)
    requires key !in PriorityKeys
    ensures DecodeValue(JObject(fields[key := payload])) == DecodeValue(JObject(fields))
  {
    assert forall k :: k in PriorityKeys ==> TryKey(fields[key := payload], k) == TryKey(fields, k);
  }

  // ---------------------------------------------------------------------------
  // List responses

  datatype ListDocument<T> = ListDocument(name: string, fields: T)

  datatype ListHTTPResponse<T> = ListHTTPResponse(documents: seq<ListDocument<T>>, nextPageToken: Option<string>) {
    predicate IsAnotherPageAvailable() {
      nextPageToken.Some?
    }
  }

  /** `ListResponse`: `.response` or `.error`. */
  datatype ListResponse<T> = Response(response: ListHTTPResponse<T>) | ListError(error: Error)

  /** `ListDocument<T>`'s synthesized decoder: `name`, then `fields`. */
  function DecodeDocument<T>(j: Json, decodeFields: Json -> Result<T>): (r: Result<ListDocument<T>>)
    ensures r.Success? <==>
      j.JObject? && DecodeString(j.fields, "name").Success? &&
      "fields" in j.fields && decodeFields(j.fields["fields"]).Success?
    ensures r.Success? ==>
      r.value == ListDocument(j.fields["name"].s, decodeFields(j.fields["fields"]).value)
  {
    var fields :- Container(j);
    var name :- DecodeString(fields, "name");
    if "fields" !in fields then Failure(KeyNotFound("fields"))
    else
      var t :- decodeFields(fields["fields"]);
      Success(ListDocument(name, t))
  }

  /** `ListHTTPResponse<T>`'s synthesized decoder: a required `documents` array,
      then an optional `nextPageToken` string. */
  function DecodeListHTTPResponse<T>(j: Json, decodeFields: Json -> Result<T>): (r: Result<ListHTTPResponse<T>>)
    ensures j.JObject? && "documents" !in j.fields ==> r == Failure(KeyNotFound("documents"))
    // an array of decodable documents with a string or absent token decodes
    ensures (j.JObject? && "documents" in j.fields && j.fields["documents"].JArray?
             && (forall i :: 0 <= i < |j.fields["documents"].items| ==>
                   DecodeDocument(j.fields["documents"].items[i], decodeFields).Success?)
             && DecodeStringIfPresent(j.fields, "nextPageToken").Success?) ==> r.Success?
    ensures r.Success? ==>
      && j.JObject? && "documents" in j.fields && j.fields["documents"].JArray?
      && |r.value.documents| == |j.fields["documents"].items|
      && (forall i :: 0 <= i < |r.value.documents| ==>
            DecodeDocument(j.fields["documents"].items[i], decodeFields) == Success(r.value.documents[i]))
      && DecodeStringIfPresent(j.fields, "nextPageToken") == Success(r.value.nextPageToken)
  {
    match Container(j)
    case Failure(e) => Failure(e)
    case Success(fields) =>
      if "documents" !in fields then Failure(KeyNotFound("documents"))
      else match fields["documents"]
        case JArray(items) =>
          (match MapAll(items, (d: Json) => DecodeDocument(d, decodeFields))
           case Failure(e) => Failure(e)
           case Success(docs) =>
             match DecodeStringIfPresent(fields, "nextPageToken")
             case Failure(e) => Failure(e)
             case Success(token) => Success(ListHTTPResponse(docs, token)))
        case JNull => Failure(ValueNotFound)
        case _ => Failure(TypeMismatch)
  }

  /** Keys of a document other than `name` and `fields`, such as `createTime`
      and `updateTime`, are never read. */
  lemma DecodeDocumentIgnoresOtherKeys<T>(fields: map<string, Json>, key: string, v: Json, decodeFields: Json -> Result<T>)
    requires key != "name" && key != "fields"
    ensures DecodeDocument(JObject(fields[key := v]), decodeFields) == DecodeDocument(JObject(fields), decodeFields)
  {
    assert DecodeString(fields[key := v], "name") == DecodeString(fields, "name");
    assert ("fields" in fields[key := v]) == ("fields" in fields);
  }

  function EncodeDocument<T>(d: ListDocument<T>, encodeFields: T -> Json): Json {
    JObject(map["name" := JString(d.name), "fields" := encodeFields(d.fields)])
  }

  /** A list response as Firestore writes it; the token key is left out on the last page. */
  function EncodeListHTTPResponse<T>(r: ListHTTPResponse<T>, encodeFields: T -> Json): Json {
    var docs := JArray(seq(|r.documents|, i requires 0 <= i < |r.documents| => EncodeDocument(r.documents[i], encodeFields)));
    match r.nextPageToken
    case None => JObject(map["documents" := docs])
    case Some(t) => JObject(map["documents" := docs, "nextPageToken" := JString(t)])
  }

  /** Decoding a list response Firestore wrote gives back its documents and token,
      provided each document's fields decode back to themselves. */
  lemma DecodeEncodeListHTTPResponse<T>(r: ListHTTPResponse<T>, encodeFields: T -> Json, decodeFields: Json -> Result<T>)
    requires forall i :: 0 <= i < |r.documents| ==>
      decodeFields(encodeFields(r.documents[i].fields)) == Success(r.documents[i].fields)
    ensures DecodeListHTTPResponse(EncodeListHTTPResponse(r, encodeFields), decodeFields) == Success(r)
  {
    var j := EncodeListHTTPResponse(r, encodeFields);
    var items := j.fields["documents"].items;
    var f := (d: Json) => DecodeDocument(d, decodeFields);
    forall i | 0 <= i < |items|
      ensures f(items[i]) == Success(r.documents[i])
    {
      assert items[i] == EncodeDocument(r.documents[i], encodeFields);
    }
    var m := MapAll(items, f);
    assert m.Success?;
    assert m.value == r.documents;
  }

  // ---------------------------------------------------------------------------
  // The client

  const UrlBase: string := "https://firestore.googleapis.com/v1beta1/projects/"
  const UrlMiddle: string := "/databases/(default)/documents/"
  const PageTokenQuery: string := "?pageToken="

  datatype FireStoreClient = FireStoreClient(listUrl: string, authenticationToken: string)

  datatype HttpRequest = HttpRequest(url: string, headers: map<string, string>)

  /** What the HTTP client hands to its completion handler. */
  datatype HttpReply = HttpReply(body: Option<Body>, error: Option<Error>)

  /** The collection's list URL. */
  function ListUrl(projectID: string, collectionID: string): string {
    UrlBase + projectID + UrlMiddle + collectionID
  }

  /** `FireStoreClient.init(authenticationToken:projectID:collectionID:client:)`. */
  function NewClient(authenticationToken: string, projectID: string, collectionID: string): (c: FireStoreClient)
    ensures c.authenticationToken == authenticationToken
    ensures '/' !in projectID ==> ProjectIdOf(c.listUrl) == Some(projectID)
    ensures CollectionIdOf(c.listUrl, projectID) == Some(collectionID)
  {
    var c := FireStoreClient(ListUrl(projectID, collectionID), authenticationToken);
    ListUrlNames(projectID, collectionID);
    c
  }

  /** The longest prefix of `s` without `sep`. */
  function UpTo(s: string, sep: char): (p: string)
    ensures p <= s && sep !in p
    ensures |p| < |s| ==> s[|p|] == sep
  {
    if s == [] || s[0] == sep then [] else [s[0]] + UpTo(s[1..], sep)
  }

  /** The project named in a list URL: the path segment after `projects/`. */
  function ProjectIdOf(url: string): Option<string> {
    if UrlBase <= url then Some(UpTo(url[|UrlBase|..], '/')) else None
  }

  /** The collection named in a list URL, given its project. */
  function CollectionIdOf(url: string, projectID: string): Option<string> {
    var head := UrlBase + projectID + UrlMiddle;
    if head <= url then Some(url[|head|..]) else None
  }

  /** The list URL names its project and collection, and both can be read back
      from it (the project when it is a single path segment). */
  lemma ListUrlNames(projectID: string, collectionID: string)
    ensures '/' !in projectID ==> ProjectIdOf(ListUrl(projectID, collectionID)) == Some(projectID)
    ensures CollectionIdOf(ListUrl(projectID, collectionID), projectID) == Some(collectionID)
  {
    var url := ListUrl(projectID, collectionID);
    var head := UrlBase + projectID + UrlMiddle;
    assert url == head + collectionID;
    assert url[|head|..] == collectionID;
    if '/' !in projectID {
      var rest := url[|UrlBase|..];
      assert rest == projectID + UrlMiddle + collectionID;
      UpToStopsAtSeparator(projectID, UrlMiddle + collectionID, '/');
      assert rest == projectID + (UrlMiddle + collectionID);
    }
  }

  lemma {:induction false} UpToStopsAtSeparator(p: string, tail: string, sep: char)
    requires sep !in p && |tail| > 0 && tail[0] == sep
    ensures UpTo(p + tail, sep) == p
    decreases |p|
  {
    if p == [] {
      assert p + tail == tail;
    } else {
      assert (p + tail)[1..] == p[1..] + tail;
      UpToStopsAtSeparator(p[1..], tail, sep);
    }
  }

  /** Two clients built for single-segment projects share a list URL only when
      they name the same project and collection. */
  lemma ListUrlInjective(p1: string, c1: string, p2: string, c2: string)
    requires '/' !in p1 && '/' !in p2
    requires ListUrl(p1, c1) == ListUrl(p2, c2)
    ensures p1 == p2 && c1 == c2
  {
    ListUrlNames(p1, c1);
    ListUrlNames(p2, c2);
  }

  /** The page token a list URL asks for, read back from the URL. */
  function PageTokenOf(listUrl: string, url: string): Option<string> {
    var head := listUrl + PageTokenQuery;
    if head <= url then Some(url[|head|..]) else None
  }

  /** The query `list` appends to the list URL: none for the first page. */
  function QueryParam(pageToken: Option<string>): string {
    match pageToken
    case Some(t) => PageTokenQuery + t
    case None => ""
  }

  lemma PageTokenOfQuery(listUrl: string, pageToken: Option<string>)
    ensures PageTokenOf(listUrl, listUrl + QueryParam(pageToken)) == pageToken
  {
    var url := listUrl + QueryParam(pageToken);
    var head := listUrl + PageTokenQuery;
    if pageToken.Some? {
      assert url == head + pageToken.value;
      assert url[|head|..] == pageToken.value;
    } else {
      assert url == listUrl;
      assert |url| < |head|;
    }
  }

  /** The request `list(pageToken:)` sends. */
  function ListRequest(client: FireStoreClient, pageToken: Option<string>): (req: HttpRequest)
    ensures req.headers == map["Authorization" := "Bearer " + client.authenticationToken]
    ensures pageToken.None? ==> req.url == client.listUrl
    ensures pageToken.Some? ==> req.url == client.listUrl + PageTokenQuery + pageToken.value
    ensures PageTokenOf(client.listUrl, req.url) == pageToken
  {
    PageTokenOfQuery(client.listUrl, pageToken);
    HttpRequest(client.listUrl + QueryParam(pageToken), map["Authorization" := "Bearer " + client.authenticationToken])
  }

  /** The request `ListHTTPResponse.nextPage(client:)` sends: a list request
      for the page's own next-page token, which is a plain first-page request
      exactly when no further page is available. */
  function NextPageRequest<T>(page: ListHTTPResponse<T>, client: FireStoreClient): (req: HttpRequest)
    ensures PageTokenOf(client.listUrl, req.url) == page.nextPageToken
    ensures req.url == client.listUrl <==> !page.IsAnotherPageAvailable()
  {
    ListRequest(client, page.nextPageToken)
  }

  /** The completion of `list`: a transport error, a body that is not JSON, a
      body that does not decode, or the decoded page. */
  function ListOutcome<T>(reply: HttpReply, decodeFields: Json -> Result<T>): (r: ListResponse<T>)
    requires reply.error.Some? || reply.body.Some?
    ensures reply.error.Some? ==> r == ListError(reply.error.value)
    ensures reply.error.None? && reply.body == Some(Malformed) ==> r == ListError(InvalidJson)
    ensures reply.error.None? && reply.body.value.Wellformed? ==>
      match DecodeListHTTPResponse(reply.body.value.json, decodeFields)
      case Success(page) => r == Response(page)
      case Failure(e) => r == ListError(e)
  {
    if reply.error.Some? then ListError(reply.error.value)
    else match reply.body.value
      case Malformed => ListError(InvalidJson)
      case Wellformed(j) =>
        match DecodeListHTTPResponse(j, decodeFields)
        case Success(page) => Response(page)
        case Failure(e) => ListError(e)
  }

  /** `FireStoreClient.list(pageToken:completionHandler:)` with the HTTP client's
      `get` as a parameter: the response handed to the completion handler. */
  function List<T>(client: FireStoreClient, pageToken: Option<string>, get: HttpRequest -> HttpReply,
                   decodeFields: Json -> Result<T>): (r: ListResponse<T>)
    requires get(ListRequest(client, pageToken)).error.Some? || get(ListRequest(client, pageToken)).body.Some?
    ensures get(ListRequest(client, pageToken)).error.Some? ==>
      r == ListError(get(ListRequest(client, pageToken)).error.value)
  {
    ListOutcome(get(ListRequest(client, pageToken)), decodeFields)
  }

  /** A JSON body without a `documents` key is a key-not-found error, whatever else it holds. */
  lemma ListWithoutDocuments<T>(client: FireStoreClient, pageToken: Option<string>, get: HttpRequest -> HttpReply,
                                decodeFields: Json -> Result<T>, fields: map<string, Json>)
    requires get(ListRequest(client, pageToken)) == HttpReply(Some(Wellformed(JObject(fields))), None)
    requires "documents" !in fields
    ensures List(client, pageToken, get, decodeFields) == ListError(KeyNotFound("documents"))
  {
  }

  /** A reply carrying a page as Firestore writes it reaches the completion
      handler as that page. */
  lemma ListOfEncodedPage<T>(client: FireStoreClient, pageToken: Option<string>, get: HttpRequest -> HttpReply,
                             page: ListHTTPResponse<T>, encodeFields: T -> Json, decodeFields: Json -> Result<T>)
    requires forall i :: 0 <= i < |page.documents| ==>
      decodeFields(encodeFields(page.documents[i].fields)) == Success(page.documents[i].fields)
    requires get(ListRequest(client, pageToken)) == HttpReply(Some(Wellformed(EncodeListHTTPResponse(page, encodeFields))), None)
    ensures List(client, pageToken, get, decodeFields) == Response(page)
  {
    DecodeEncodeListHTTPResponse(page, encodeFields, decodeFields);
  }
}
