/** Classes/PublicApi.php: the public client. Requests go through one
    route call that classifies the answer and updates `lastStatus` and
    `lastError`; the public methods shape the request and unwrap the answer
    envelope. The HTTP exchange is a `Reply` parameter, the debug mode a
    constant of the client, and the session a Sessions.Session object. */
module PublicClient {
  import opened Php
  import Sessions

  /** What the HTTP client sees for one request: a status with the decoded
      body, or a failure before any status */
  datatype Reply = Reply(status: nat, body: Value) | TransportError

  /** A call either returns a value or lets an exception escape */
  datatype Outcome = Returned(value: Value) | Thrown

  /** The debug mode the error path switches on */
  datatype DebugMode = Inline | ResultMode | NoDebug

  datatype LogLevel = Debug | Warning | Error

  /** One record handed to the logger: level, message, route, the scrubbed
      request data, the status and the decoded response */
  datatype LogEntry = LogEntry(level: LogLevel, message: string, route: string,
                               data: map<string, Value>, status: nat, response: Value)

  /** A request as sent: route and JSON data */
  datatype Request = Request(route: string, data: map<string, Value>)

  /** How the HTTP client treats a reply: below 400 it succeeds, 4xx raises
      the ClientException the route call catches, and 5xx or a transport
      failure raise exceptions it does not catch */
  datatype ReplyClass = Success | ClientError | Escapes

  function Classify(reply: Reply): (c: ReplyClass)
    ensures c == Success <==> reply.Reply? && reply.status < 400
    ensures c == ClientError <==> reply.Reply? && 400 <= reply.status < 500
    ensures c == Escapes <==> reply.TransportError? || reply.status >= 500
  {
    if reply.TransportError? then Escapes
    else if reply.status < 400 then Success
    else if reply.status < 500 then ClientError
    else Escapes
  }

  /** Request data that is null or not an array is sent as an empty array */
  function NormalizeRequestData(data: Value): (r: map<string, Value>)
    ensures data.Arr? ==> r == data.a
    ensures !data.Arr? ==> r == map[]
  {
    if data.Null? || !data.Arr? then map[] else data.a
  }

  /** The keys cleanUpLogData removes */
  const Forbidden: set<string> := {"password", "password_repeat", "token", "authId"}

  /** cleanUpLogData: drops exactly the forbidden top-level keys and keeps
      every other entry as it is */
  method CleanUpLogData(data: map<string, Value>) returns (r: map<string, Value>)
    ensures r.Keys == data.Keys - Forbidden
    ensures forall k :: k in r ==> r[k] == data[k]
  {
    r := data;
    var keys := data.Keys;
    while keys != {}
      invariant keys <= data.Keys
      invariant r.Keys == (data.Keys - Forbidden) + (keys * Forbidden)
      invariant forall k :: k in r ==> r[k] == data[k]
      decreases keys
    {
      var key :| key in keys;
      if key in Forbidden {
        r := r - {key};
      }
      keys := keys - {key};
    }
  }

  /** The scrubbed data as a value, for the log records */
  function Scrubbed(data: map<string, Value>): (r: map<string, Value>)
    ensures r.Keys == data.Keys - Forbidden
    ensures forall k :: k in r ==> r[k] == data[k]
  {
    map k | k in data && k !in Forbidden :: data[k]
  }

  /** flatOutput: the selected entry when set, else the whole input when
      retAll, else false */
  function FlatOutput(data: Value, retAll: bool, selector: string): (r: Value)
    ensures IsSetAt(data, selector) ==> r == data.a[selector]
    ensures !IsSetAt(data, selector) && retAll ==> r == data
    ensures !IsSetAt(data, selector) && !retAll ==> r == Bool(false)
  {
    if IsSetAt(data, selector) then data.a[selector]
    else if retAll then data
    else Bool(false)
  }

  /** pagedOutput: false without a non-empty data entry, else exactly the
      data under dataKey with the total and the pagination */
  function PagedOutput(result: Value, dataKey: string): (r: Value)
    ensures !IsSetAt(result, "data") || !Truthy(result.a["data"]) ==> r == Bool(false)
    ensures IsSetAt(result, "data") && Truthy(result.a["data"]) && dataKey !in {"total", "pagination"} ==>
      r.Arr? && r.a.Keys == {dataKey, "total", "pagination"} &&
      r.a[dataKey] == result.a["data"] && r.a["total"] == At(result, "totalCount") &&
      r.a["pagination"] == At(result, "pages")
  {
    if !IsSetAt(result, "data") || !Truthy(At(result, "data")) then Bool(false)
    else Arr(map[dataKey := At(result, "data")]["total" := At(result, "totalCount")]["pagination" := At(result, "pages")])
  }

  /** A paged answer is never false when the data entry is non-empty, and it
      is an array from which the data can be read back */
  lemma PagedOutputRoundTrip(result: Value, dataKey: string)
    requires IsSetAt(result, "data") && Truthy(result.a["data"])
    requires dataKey !in {"total", "pagination"}
    ensures FlatOutput(PagedOutput(result, dataKey), false, dataKey) == result.a["data"]
  {
  }

  /** The request of getWine, getByCategory, getWinepass and
      getWinepassWines: a numeric input is an id, anything else goes under
      `key` */
  function IdentifierPayload(x: Value, key: string): (r: map<string, Value>)
    ensures IsNumeric(x) ==> r == map["id" := x]
    ensures !IsNumeric(x) ==> r == map[key := x]
  {
    if IsNumeric(x) then map["id" := x] else map[key := x]
  }

  /** Digit strings are ids; text starting with a letter is not */
  lemma IdentifierPayloadExamples(digits: string, slug: string, key: string)
    requires digits != [] && forall i :: 0 <= i < |digits| ==> IsDigit(digits[i])
    requires slug != [] && (IsLowerAscii(slug[0]) || IsUpperAscii(slug[0]))
    ensures IdentifierPayload(Str(digits), key) == map["id" := Str(digits)]
    ensures IdentifierPayload(Str(slug), key) == map[key := Str(slug)]
  {
    DigitsAreNumeric(digits);
    LetterFirstNotNumeric(slug);
  }

  /** The language the searches send, as written: the session value `??`
      'de'. Outside TYPO3 the session answers false for a missing key, and
      false is not null, so the default is never taken there. */
  function SearchLanguageAsWritten(sessionLanguage: Value): Value
  {
    Coalesce(sessionLanguage, Str("de"))
  }

  /** The language the searches evidently mean to send: 'de' whenever the
      session has no language */
  function SearchLanguage(sessionLanguage: Value): (r: Value)
    ensures sessionLanguage == Null || sessionLanguage == Bool(false) ==> r == Str("de")
    ensures sessionLanguage != Null && sessionLanguage != Bool(false) ==> r == sessionLanguage
  {
    if sessionLanguage == Null || sessionLanguage == Bool(false) then Str("de") else sessionLanguage
  }

  /** With the session outside TYPO3 and no language stored, the code as
      written sends language false, never 'de' */
  lemma LanguageDefaultNeverApplies(session: Sessions.Session)
    requires session.env != Sessions.Typo3 && !IsSet(session.data, "language")
    ensures SearchLanguageAsWritten(session.GetValue("language")) == Bool(false)
    ensures SearchLanguage(session.GetValue("language")) == Str("de")
  {
  }

  /** A stored language is sent as it is by both */
  lemma LanguageStoredIsKept(session: Sessions.Session)
    requires session.env != Sessions.Typo3 && IsSet(session.data, "language") && session.data["language"] != Bool(false)
    ensures SearchLanguage(session.GetValue("language")) == session.data["language"]
    ensures SearchLanguageAsWritten(session.GetValue("language")) == session.data["language"]
  {
  }

  /** The search request: the caller's data with the language set, and
      orderBy and max defaulted where the caller left them unset */
  function SearchPayload(postData: map<string, Value>, language: Value): (r: map<string, Value>)
    ensures r.Keys == postData.Keys + {"language", "orderBy", "max"}
    ensures r["language"] == language
    ensures r["orderBy"] == (if IsSet(postData, "orderBy") then postData["orderBy"] else Str("chstamp DESC"))
    ensures r["max"] == (if IsSet(postData, "max") then postData["max"] else Int(9))
    ensures forall k :: k in postData && k !in {"language", "orderBy", "max"} ==> r[k] == postData[k]
  {
    var withLanguage := postData["language" := language];
    var withOrder := withLanguage["orderBy" := Coalesce(At(Arr(withLanguage), "orderBy"), Str("chstamp DESC"))];
    withOrder["max" := Coalesce(At(Arr(withOrder), "max"), Int(9))]
  }

  /** What an outcome becomes when the route call's value goes through
      flatOutput($result, false) or pagedOutput; exceptions pass through */
  function Flat(o: Outcome): Outcome
  {
    match o
    case Returned(v) => Returned(FlatOutput(v, false, "data"))
    case Thrown => Thrown
  }

  function Paged(o: Outcome, dataKey: string): Outcome
  {
    match o
    case Returned(v) => Returned(PagedOutput(v, dataKey))
    case Thrown => Thrown
  }

  /** What the route call returns for a reply */
  function RouteOutcome(reply: Reply, debugMode: DebugMode): (o: Outcome)
    ensures Classify(reply) == Success ==> o == Returned(reply.body)
    ensures Classify(reply) == ClientError && debugMode == ResultMode ==> o == Returned(reply.body)
    ensures Classify(reply) == ClientError && debugMode != ResultMode ==> o == Returned(Bool(false))
    ensures Classify(reply) == Escapes <==> o == Thrown
  {
    match Classify(reply)
    case Success => Returned(reply.body)
    case ClientError => if debugMode == ResultMode then Returned(reply.body) else Returned(Bool(false))
    case Escapes => Thrown
  }

  /** A client error never reaches the caller as data unless the debug mode
      is 'result': the public methods then see false, and flatOutput turns
      it into false again */
  lemma ClientErrorIsFalse(reply: Reply, debugMode: DebugMode)
    requires Classify(reply) == ClientError && debugMode != ResultMode
    ensures Flat(RouteOutcome(reply, debugMode)) == Returned(Bool(false))
    ensures Paged(RouteOutcome(reply, debugMode), "wines") == Returned(Bool(false))
  {
  }

  /** The part of the client a route call updates: the status flag, the
      last error body and the log */
  datatype Tracking = Tracking(lastStatus: bool, lastError: Value, logEntries: seq<LogEntry>)

  /** What a route call with this request data does to the tracked state: a
      success sets the flag and logs the debug record with status 200; a
      client error clears the flag, keeps the body as the error and logs 401
      as a warning and any other status as an error; an escaping exception
      leaves everything as it was */
  function AfterRoute(t: Tracking, route: string, payload: map<string, Value>, reply: Reply): Tracking
  {
    match Classify(reply)
    case Success =>
      Tracking(true, t.lastError, t.logEntries + [LogEntry(Debug, "api request", route, Scrubbed(payload), 200, reply.body)])
    case ClientError =>
      Tracking(false, reply.body,
               t.logEntries + [LogEntry(if reply.status == 401 then Warning else Error,
                                        if reply.status == 401 then "unauthorized" else "error",
                                        route, Scrubbed(payload), reply.status, reply.body)])
    case Escapes => t
  }

  class PublicApi {
    var lastStatus: bool
    var lastError: Value
    const debugMode: DebugMode
    const session: Sessions.Session
    var logEntries: seq<LogEntry>
    /** The requests sent so far */
    ghost var sent: seq<Request>

    constructor(debugMode: DebugMode, session: Sessions.Session)
      ensures lastStatus && lastError == Null && logEntries == [] && sent == []
      ensures this.debugMode == debugMode && this.session == session
    {
      lastStatus := true;
      lastError := Null;
      this.debugMode := debugMode;
      this.session := session;
      logEntries := [];
      sent := [];
    }

    /** The tracked state as a value */
    function Tracked(): Tracking
      reads this
    {
      Tracking(lastStatus, lastError, logEntries)
    }

    /** curlApiRoute. A success sets lastStatus and returns the body; a
        client error clears lastStatus, keeps the body as lastError and logs
        401 as a warning and every other status as an error; an escaping
        exception changes nothing. */
    method CurlApiRoute(route: string, data: Value, reply: Reply) returns (o: Outcome)
      modifies this
      ensures o == RouteOutcome(reply, debugMode)
      ensures sent == old(sent) + [Request(route, NormalizeRequestData(data))]
      ensures Classify(reply) == Success ==>
        lastStatus && lastError == old(lastError) &&
        logEntries == old(logEntries) + [LogEntry(Debug, "api request", route, Scrubbed(NormalizeRequestData(data)), 200, reply.body)]
      ensures Classify(reply) == ClientError ==>
        !lastStatus && lastError == reply.body &&
        logEntries == old(logEntries) + [LogEntry(if reply.status == 401 then Warning else Error,
                                                  if reply.status == 401 then "unauthorized" else "error",
                                                  route, Scrubbed(NormalizeRequestData(data)), reply.status, reply.body)]
      ensures Classify(reply) == Escapes ==>
        lastStatus == old(lastStatus) && lastError == old(lastError) && logEntries == old(logEntries)
      ensures Tracked() == AfterRoute(old(Tracked()), route, NormalizeRequestData(data), reply)
    {
      var payload := NormalizeRequestData(data);
      var logData := CleanUpLogData(payload);
      assert logData == Scrubbed(payload);
      sent := sent + [Request(route, payload)];
      match reply
      case TransportError =>
        return Thrown;
      case Reply(status, body) =>
        if status >= 500 {
          return Thrown;
        }
        if status < 400 {
          logEntries := logEntries + [LogEntry(Debug, "api request", route, logData, 200, body)];
          lastStatus := true;
          return Returned(body);
        }
        if status == 401 {
          logEntries := logEntries + [LogEntry(Warning, "unauthorized", route, logData, status, body)];
        } else {
          logEntries := logEntries + [LogEntry(Error, "error", route, logData, status, body)];
        }
        lastError := body;
        lastStatus := false;
        if debugMode == ResultMode {
          return Returned(lastError);
        }
        return Returned(Bool(false));
    }

    /** getWine: by id or by path segment */
    method GetWine(x: Value, reply: Reply) returns (o: Outcome)
      modifies this
      ensures o == Flat(RouteOutcome(reply, debugMode))
      ensures sent == old(sent) + [Request("wines/getPublic", IdentifierPayload(x, "path_segment"))]
      ensures Tracked() == AfterRoute(old(Tracked()), "wines/getPublic", IdentifierPayload(x, "path_segment"), reply)
    {
      var postData := if IsNumeric(x) then map["id" := x] else map["path_segment" := x];
      var result := CurlApiRoute("wines/getPublic", Arr(postData), reply);
      o := Flat(result);
    }

    /** getByCategory: by id or by path segment */
    method GetByCategory(x: Value, reply: Reply) returns (o: Outcome)
      modifies this
      ensures o == Flat(RouteOutcome(reply, debugMode))
      ensures sent == old(sent) + [Request("wines/getByCategory", IdentifierPayload(x, "path_segment"))]
      ensures Tracked() == AfterRoute(old(Tracked()), "wines/getByCategory", IdentifierPayload(x, "path_segment"), reply)
    {
      var postData := if IsNumeric(x) then map["id" := x] else map["path_segment" := x];
      var result := CurlApiRoute("wines/getByCategory", Arr(postData), reply);
      o := Flat(result);
    }

    /** getWinepass: by id or by hash */
    method GetWinepass(x: Value, reply: Reply) returns (o: Outcome)
      modifies this
      ensures o == Flat(RouteOutcome(reply, debugMode))
      ensures sent == old(sent) + [Request("winepass/wines/get", IdentifierPayload(x, "hash"))]
      ensures Tracked() == AfterRoute(old(Tracked()), "winepass/wines/get", IdentifierPayload(x, "hash"), reply)
    {
      var postData := if IsNumeric(x) then map["id" := x] else map["hash" := x];
      var result := CurlApiRoute("winepass/wines/get", Arr(postData), reply);
      o := Flat(result);
    }

    /** getWinepassWines: by id or by hash */
    method GetWinepassWines(x: Value, reply: Reply) returns (o: Outcome)
      modifies this
      ensures o == Flat(RouteOutcome(reply, debugMode))
      ensures sent == old(sent) + [Request("winepass/wines/getAll", IdentifierPayload(x, "hash"))]
      ensures Tracked() == AfterRoute(old(Tracked()), "winepass/wines/getAll", IdentifierPayload(x, "hash"), reply)
    {
      var postData := if IsNumeric(x) then map["id" := x] else map["hash" := x];
      var result := CurlApiRoute("winepass/wines/getAll", Arr(postData), reply);
      o := Flat(result);
    }

    /** The search shared by searchWine and searchWinery: false without a
        query and no request; else the defaulted request and a paged answer */
    method Search(route: string, dataKey: string, postData: Value, reply: Reply) returns (o: Outcome)
      modifies this
      ensures !IsSetAt(postData, "query") ==>
        o == Returned(Bool(false)) && sent == old(sent) && Tracked() == old(Tracked())
      ensures IsSetAt(postData, "query") ==>
        var payload := SearchPayload(postData.a, SearchLanguage(session.GetValue("language")));
        o == Paged(RouteOutcome(reply, debugMode), dataKey) &&
        sent == old(sent) + [Request(route, payload)] &&
        Tracked() == AfterRoute(old(Tracked()), route, payload, reply)
    {
      if !IsSetAt(postData, "query") {
        return Returned(Bool(false));
      }
      var data := postData.a;
      data := data["language" := SearchLanguage(session.GetValue("language"))];
      data := data["orderBy" := Coalesce(At(Arr(data), "orderBy"), Str("chstamp DESC"))];
      data := data["max" := Coalesce(At(Arr(data), "max"), Int(9))];
      var result := CurlApiRoute(route, Arr(data), reply);
      o := Paged(result, dataKey);
    }

    method SearchWine(postData: Value, reply: Reply) returns (o: Outcome)
      modifies this
      ensures !IsSetAt(postData, "query") ==>
        o == Returned(Bool(false)) && sent == old(sent) && Tracked() == old(Tracked())
      ensures IsSetAt(postData, "query") ==>
        var payload := SearchPayload(postData.a, SearchLanguage(session.GetValue("language")));
        o == Paged(RouteOutcome(reply, debugMode), "wines") &&
        sent == old(sent) + [Request("wines/search", payload)] &&
        Tracked() == AfterRoute(old(Tracked()), "wines/search", payload, reply)
    {
      o := Search("wines/search", "wines", postData, reply);
    }

    method SearchWinery(postData: Value, reply: Reply) returns (o: Outcome)
      modifies this
      ensures !IsSetAt(postData, "query") ==>
        o == Returned(Bool(false)) && sent == old(sent) && Tracked() == old(Tracked())
      ensures IsSetAt(postData, "query") ==>
        var payload := SearchPayload(postData.a, SearchLanguage(session.GetValue("language")));
        o == Paged(RouteOutcome(reply, debugMode), "wineries") &&
        sent == old(sent) + [Request("wineries/search", payload)] &&
        Tracked() == AfterRoute(old(Tracked()), "wineries/search", payload, reply)
    {
      o := Search("wineries/search", "wineries", postData, reply);
    }

    /** register: false and no request for null; else the registration */
    method Register(postData: Value, reply: Reply) returns (o: Outcome)
      modifies this
      ensures postData == Null ==>
        o == Returned(Bool(false)) && sent == old(sent) && Tracked() == old(Tracked())
      ensures postData != Null ==>
        o == Flat(RouteOutcome(reply, debugMode)) &&
        sent == old(sent) + [Request("customers/register", NormalizeRequestData(postData))] &&
        Tracked() == AfterRoute(old(Tracked()), "customers/register", NormalizeRequestData(postData), reply)
    {
      if postData == Null {
        return Returned(Bool(false));
      }
      var result := CurlApiRoute("customers/register", postData, reply);
      o := Flat(result);
    }
  }
}
