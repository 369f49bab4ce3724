/** The request handlers of scinet/views.py: the duplicate check
    `ping_endpoint`, the ingestion endpoint `raw_endpoint`, and the 404 and
    405 error handlers.

    The collaborators whose code is not part of this model are abstracted:
    JSON decoding and the submission controller are function parameters,
    the raw payload storage is a map from path to payload, and the id
    generator is a counter whose ids are never yet used as storage paths. */
module Views {
  import opened Chars

  datatype Option<T> = None | Some(value: T)

  /** A decoded JSON value. Numbers are integers here. */
  datatype Json =
    | Null
    | Bool(b: bool)
    | Number(n: int)
    | Str(s: string)
    | Array(items: seq<Json>)
    | Object(fields: map<string, Json>)

  /** A record in a Mongo collection. */
  type Document = map<string, Json>

  /** The database: the `raw` collection and the `groups` collection. */
  datatype Db = Db(raw: seq<Document>, groups: seq<Document>)

  /** An HTTP response: its status code and its JSON body, if any. */
  datatype Response = Response(status: nat, body: Option<Json>)

  /** The submission controller: given the decoded submission, its uid
      and the database, it answers and updates the database. */
  type Controller = (Json, nat, Db) -> (Response, Db)

  /** The only content type the ingestion endpoint accepts. */
  const JsonContentType: string := "application/json"

  // ---------------------------------------------------------------------
  // ping_endpoint
  // ---------------------------------------------------------------------

  /** Mongo equality on one field: the value itself, or an array holding
      it. */
  predicate ValueMatches(v: Json, target: Json) {
    v == target || (v.Array? && target in v.items)
  }

  /** The query `{'hash': target}`. With no target (the form has no
      `hash`), Mongo's null query matches records whose hash is missing or
      null. */
  predicate HashMatches(doc: Document, target: Option<string>) {
    match target
    case None => "hash" !in doc || ValueMatches(doc["hash"], Null)
    case Some(h) => "hash" in doc && ValueMatches(doc["hash"], Str(h))
  }

  /** `find(...).count()`: the number of records the query matches. */
  function CountMatching(docs: seq<Document>, target: Option<string>): (n: nat)
    ensures n <= |docs|
    ensures n > 0 <==> exists i | 0 <= i < |docs| :: HashMatches(docs[i], target)
  {
    if docs == [] then 0
    else
      var rest := CountMatching(docs[1..], target);
      assert forall i | 0 <= i < |docs| - 1 :: docs[1..][i] == docs[i + 1];
      (if HashMatches(docs[0], target) then 1 else 0) + rest
  }

  /** `ping_endpoint`: 201 when some raw record has the requested hash
      (drop the submission), 204 otherwise (go on submitting). The body is
      empty, and the database is only read. */
  function Ping(raw: seq<Document>, hash: Option<string>): (r: Response)
    ensures r.body == None
    ensures r.status == 201 || r.status == 204
    ensures r.status == 201 <==> exists i | 0 <= i < |raw| :: HashMatches(raw[i], hash)
  {
    if CountMatching(raw, hash) > 0 then Response(201, None) else Response(204, None)
  }

  /** Posting no `hash` field at all finds any raw record that lacks one. */
  lemma PingWithoutHash(raw: seq<Document>, i: nat)
    requires i < |raw| && "hash" !in raw[i]
    ensures Ping(raw, None).status == 201
  {
  }

  /** An unknown hash against an empty collection: 204. The request body
      is JSON, not a form, so no hash is read from it. */
  lemma PingNonexistentHash()
    ensures Ping([], None).status == 204
    ensures Ping([], Some("1234567890")).status == 204
  {
  }

  /** A hash inserted into the raw collection is found: 201. */
  lemma PingExistingHash(doc: Document)
    requires doc == map["hash" := Str("testhash")]
    ensures Ping([doc], Some("testhash")).status == 201
  {
    assert HashMatches([doc][0], Some("testhash"));
  }

  // ---------------------------------------------------------------------
  // Storage paths
  // ---------------------------------------------------------------------

  /** The decimal digit for d < 10. */
  function Digit(d: nat): (c: char)
    requires d < 10
    ensures IsDigit(c) && c as int - '0' as int == d
  {
    ['0', '1', '2', '3', '4', '5', '6', '7', '8', '9'][d]
  }

  /** `str(uid)`: decimal notation, no leading zeros. */
  function NatToString(n: nat): (r: string)
    ensures |r| >= 1
    ensures forall k | 0 <= k < |r| :: IsDigit(r[k])
    decreases n
  {
    if n < 10 then [Digit(n)] else NatToString(n / 10) + [Digit(n % 10)]
  }

  /** The value of a string of decimal digits. */
  function DecimalValue(s: string): nat
    decreases |s|
  {
    if s == [] then 0
    else
      var d := s[|s| - 1] as int - '0' as int;
      DecimalValue(s[..|s| - 1]) * 10 + (if 0 <= d < 10 then d else 0)
  }

  /** Reading back `str(uid)` gives uid. */
  lemma {:induction false} DecimalRoundTrip(n: nat)
    ensures DecimalValue(NatToString(n)) == n
    decreases n
  {
    var s := NatToString(n);
    if n < 10 {
      assert s[..0] == [];
    } else {
      DecimalRoundTrip(n / 10);
      assert s[..|s| - 1] == NatToString(n / 10);
    }
  }

  /** The file a payload with this uid is stored in: `raw_payloads/<uid>`
      under the application's directory. */
  function RawPath(uid: nat): (p: string)
    ensures |p| > 13 && p[..13] == "raw_payloads/"
  {
    "raw_payloads/" + NatToString(uid)
  }

  /** Distinct uids give distinct files. */
  lemma RawPathInjective(a: nat, b: nat)
    ensures RawPath(a) == RawPath(b) <==> a == b
  {
    if RawPath(a) == RawPath(b) {
      assert RawPath(a)[13..] == NatToString(a);
      assert RawPath(b)[13..] == NatToString(b);
      DecimalRoundTrip(a);
      DecimalRoundTrip(b);
    }
  }

  // ---------------------------------------------------------------------
  // raw_endpoint
  // ---------------------------------------------------------------------

  /** The side effects of the ingestion endpoint, in the order they
      happen. */
  datatype Effect =
    | BodyDecoded(data: string)
    | IdIssued(uid: nat)
    | FileWritten(path: string, payload: Json)
    | ControllerCalled(submission: Json, uid: nat)

  /** The server's state as the endpoints see it. */
  class Api {
    /** The raw payload files: path to stored payload. */
    var files: map<string, Json>
    /** The Mongo database. */
    var db: Db
    /** The next id the generator hands out. */
    var nextId: nat
    /** Every side effect so far. */
    ghost var trace: seq<Effect>

    /** No id the generator has yet to hand out names a stored file. */
    ghost predicate Valid()
      reads this
    {
      forall i: nat | i >= nextId :: RawPath(i) !in files
    }

    constructor(db0: Db)
      ensures Valid()
      ensures files == map[] && db == db0 && nextId == 0 && trace == []
    {
      files := map[];
      db := db0;
      nextId := 0;
      trace := [];
    }

    /** `get_id()`: a uid whose storage path is still free. */
    method GetId() returns (uid: nat)
      requires Valid()
      modifies this
      ensures Valid()
      ensures uid == old(nextId) && nextId == uid + 1
      ensures RawPath(uid) !in files
      ensures files == old(files) && db == old(db)
      ensures trace == old(trace) + [IdIssued(uid)]
    {
      uid := nextId;
      nextId := nextId + 1;
      trace := trace + [IdIssued(uid)];
    }

    /** `json.loads(data)`, with the decoder as a parameter: None when
        the body is not valid JSON. Only the trace records the call. */
    method Decode(data: string, decode: string -> Option<Json>) returns (r: Option<Json>)
      modifies this
      ensures r == decode(data)
      ensures files == old(files) && db == old(db) && nextId == old(nextId)
      ensures trace == old(trace) + [BodyDecoded(data)]
    {
      r := decode(data);
      trace := trace + [BodyDecoded(data)];
    }

    /** `store_json_to_file(payload, path)`: the file at path now holds
        payload; every other file is as it was. Writing to the path of an
        id not yet issued would break Valid(); any other path keeps it. */
    method StoreJsonToFile(payload: Json, path: string)
      modifies this
      ensures old(Valid()) && (forall i: nat | i >= nextId :: RawPath(i) != path) ==> Valid()
      ensures files == old(files)[path := payload]
      ensures db == old(db) && nextId == old(nextId)
      ensures trace == old(trace) + [FileWritten(path, payload)]
    {
      files := files[path := payload];
      trace := trace + [FileWritten(path, payload)];
    }

    /** `JSONController(submission, db=db, _id=uid).submit()`. */
    method Submit(submission: Json, uid: nat, controller: Controller) returns (resp: Response)
      modifies this
      ensures Valid() <==> old(Valid())
      ensures (resp, db) == controller(submission, uid, old(db))
      ensures files == old(files) && nextId == old(nextId)
      ensures trace == old(trace) + [ControllerCalled(submission, uid)]
    {
      var out := controller(submission, uid, db);
      resp := out.0;
      db := out.1;
      trace := trace + [ControllerCalled(submission, uid)];
    }

    /** `raw_endpoint`. A content type other than exactly
        "application/json" gives 400 and a body that does not decode gives
        405. A 400 leaves everything as it was, the body not even decoded;
        a 405 leaves the files, the database and the id counter as they
        were. Otherwise a fresh uid is drawn, the decoded submission is
        written to its own new file, and only then is it handed to the
        controller, whose answer is returned as is. */
    method RawEndpoint(contentType: string, data: string, decode: string -> Option<Json>,
                       controller: Controller) returns (resp: Response)
      requires Valid()
      modifies this
      ensures Valid()
      ensures contentType != JsonContentType ==>
        resp == Response(400, None) && ErrorOf(resp) == None && unchanged(this)
      ensures contentType == JsonContentType && decode(data).None? ==>
        && resp == Response(405, None) && ErrorOf(resp) == None
        && files == old(files) && db == old(db) && nextId == old(nextId)
        && trace == old(trace) + [BodyDecoded(data)]
      ensures contentType == JsonContentType && decode(data).Some? ==>
        var submission := decode(data).value;
        var uid := old(nextId);
        && RawPath(uid) !in old(files)
        && files == old(files)[RawPath(uid) := submission]
        && nextId == uid + 1
        && (resp, db) == controller(submission, uid, old(db))
        && trace == old(trace) + [BodyDecoded(data), IdIssued(uid),
                                  FileWritten(RawPath(uid), submission),
                                  ControllerCalled(submission, uid)]
    {
      if contentType == JsonContentType {
        var decoded := Decode(data, decode);
        if decoded.None? {
          return Response(405, None);
        }
        var submission := decoded.value;
        var uid := GetId();
        var path := RawPath(uid);
        forall i: nat | i >= nextId
          ensures RawPath(i) != path
        {
          RawPathInjective(i, uid);
        }
        StoreJsonToFile(submission, path);
        resp := Submit(submission, uid, controller);
      } else {
        resp := Response(400, None);
      }
    }
  }

  /** Consecutive accepted submissions land in different files: the one
      stored first is not overwritten by the second. */
  method AcceptTwo(api: Api, first: string, second: string, decode: string -> Option<Json>,
                   controller: Controller)
    requires api.Valid()
    requires decode(first).Some? && decode(second).Some?
    modifies api
    ensures api.Valid()
    ensures RawPath(old(api.nextId)) in api.files && api.files[RawPath(old(api.nextId))] == decode(first).value
    ensures RawPath(old(api.nextId) + 1) in api.files && api.files[RawPath(old(api.nextId) + 1)] == decode(second).value
  {
    var uid := api.nextId;
    var _ := api.RawEndpoint(JsonContentType, first, decode, controller);
    var _ := api.RawEndpoint(JsonContentType, second, decode, controller);
    RawPathInjective(uid, uid + 1);
  }

  // ---------------------------------------------------------------------
  // Error handlers
  // ---------------------------------------------------------------------

  /** The JSON body `{"error": message}`. */
  function ErrorBody(message: string): Json {
    Object(map["error" := Str(message)])
  }

  /** The `error` field of a response's JSON body, if it has one. */
  function ErrorOf(r: Response): Option<string> {
    if r.body.Some? && r.body.value.Object? && "error" in r.body.value.fields
       && r.body.value.fields["error"].Str?
    then Some(r.body.value.fields["error"].s)
    else None
  }

  /** Handler for 404: status 404, error "Page Not Found". */
  function NotFound(): (r: Response)
    ensures r.status == 404 && ErrorOf(r) == Some("Page Not Found")
  {
    Response(404, Some(ErrorBody("Page Not Found")))
  }

  /** Handler for 405: status 405, error "Method Not Allowed". */
  function MethodNotAllowed(): (r: Response)
    ensures r.status == 405 && ErrorOf(r) == Some("Method Not Allowed")
  {
    Response(405, Some(ErrorBody("Method Not Allowed")))
  }

  /** An error body carries exactly its message. */
  lemma ErrorBodyRoundTrip(status: nat, message: string)
    ensures ErrorOf(Response(status, Some(ErrorBody(message)))) == Some(message)
  {
  }
}
