/** Classes/Api.php: the early service client. It keeps a `vinou` session
    entry with the token pair, re-logs in when a probe fails, and shapes
    the answers of a few routes. Every curl exchange is a `CurlReply`
    parameter; the session is a Sessions.Session object. */
module LegacyApi {
  import opened Php
  import Sessions

  const ApiUrl := "https://api.vinou.de/service/"

  /** What curl reports for one request: its error number, the HTTP status,
      the JSON-decoded body (null when it does not decode) and the info array */
  datatype CurlReply = CurlReply(errno: int, status: nat, body: Value, info: Value)

  /** A request as sent: URL, posted data and bearer token (null for login) */
  datatype Request = Request(url: string, payload: Value, bearer: Value)

  /** The log lines that reach the log: all of them when logging is on */
  function Logged(enabled: bool, entries: seq<string>): seq<string>
  {
    if enabled then entries else []
  }

  /** login's success test: no transport error and both tokens set */
  predicate LoginSucceeded(reply: CurlReply)
  {
    reply.errno == 0 && IsSetAt(reply.body, "token") && IsSetAt(reply.body, "refreshToken")
  }

  /** The two lines login logs */
  function LoginLog(reply: CurlReply): seq<string>
  {
    ["login and write session", if LoginSucceeded(reply) then "login succeeded" else "login failed"]
  }

  /** A successful cached login's effect on the session: the token pair is
      written under 'vinou' in the store of the environment, and every other
      entry of both stores is kept */
  predicate StoredTokenPair(env: Sessions.Environment, data0: map<string, Value>, framework0: map<string, Value>,
                            data: map<string, Value>, framework: map<string, Value>, reply: CurlReply)
  {
    if env == Sessions.Typo3 then framework == framework0["vinou" := TokenPair(reply.body)] && data == data0
    else data == data0["vinou" := TokenPair(reply.body)] && framework == framework0
  }

  /** The two lines a route call logs */
  function RouteLog(route: string, status: nat): seq<string>
  {
    ["curl route " + ApiUrl + route, "Status: " + NatToString(status)]
  }

  /** The session entry login writes */
  function TokenPair(body: Value): (r: Value)
    ensures r.Arr? && r.a.Keys == {"token", "refreshToken"}
    ensures r.a["token"] == At(body, "token") && r.a["refreshToken"] == At(body, "refreshToken")
  {
    Arr(map["token" := At(body, "token"), "refreshToken" := At(body, "refreshToken")])
  }

  /** The three answers of curlApiRoute's status switch */
  function RouteResult(reply: CurlReply): (r: Value)
    ensures reply.status == 200 ==> r == reply.body
    ensures reply.status != 200 ==>
      r.Arr? && r.a.Keys == {"error", "info", "response"} &&
      r.a["info"] == reply.info && r.a["response"] == reply.body
    ensures reply.status == 401 ==> r.a["error"] == Str("unauthorized")
    ensures reply.status != 200 && reply.status != 401 ==> r.a["error"] == Str("recreate token or bad request")
  {
    if reply.status == 200 then reply.body
    else if reply.status == 401 then
      Arr(map["error" := Str("unauthorized"), "info" := reply.info, "response" := reply.body])
    else
      Arr(map["error" := Str("recreate token or bad request"), "info" := reply.info, "response" := reply.body])
  }

  /** A non-200 answer is never mistaken for a client login: it has no token */
  lemma RouteErrorHasNoToken(reply: CurlReply)
    requires reply.status != 200
    ensures !IsSetAt(RouteResult(reply), "token")
    ensures ClientLoginResult(RouteResult(reply)) == Bool(false)
  {
  }

  /** getClientLogin's answer: the result without id and info when both
      tokens are set, else false */
  function ClientLoginResult(result: Value): (r: Value)
    ensures IsSetAt(result, "token") && IsSetAt(result, "refreshToken") ==>
      r.Arr? && r.a.Keys == result.a.Keys - {"id", "info"} &&
      (forall k :: k in r.a ==> r.a[k] == result.a[k])
    ensures !(IsSetAt(result, "token") && IsSetAt(result, "refreshToken")) ==> r == Bool(false)
  {
    if IsSetAt(result, "token") && IsSetAt(result, "refreshToken") then Arr(result.a - {"id", "info"})
    else Bool(false)
  }

  /** getBasket's answer: the data entry when set, else false */
  function BasketData(result: Value): (r: Value)
    ensures IsSetAt(result, "data") ==> r == result.a["data"]
    ensures !IsSetAt(result, "data") ==> r == Bool(false)
  {
    if IsSetAt(result, "data") then At(result, "data") else Bool(false)
  }

  /** findPackage's request: the type, and the count under the type's own name */
  function PackagePayload(packageType: string, count: Value): (r: map<string, Value>)
    ensures r.Keys == {"type", packageType}
    ensures r[packageType] == count
    ensures packageType != "type" ==> r["type"] == Str(packageType)
  {
    map["type" := Str(packageType)][packageType := count]
  }

  /** A package type named "type" makes the count overwrite the type entry */
  lemma PackagePayloadTypeClash(count: Value)
    ensures PackagePayload("type", count) == map["type" := count]
  {
  }

  class Api {
    var authData: map<string, Value>
    const enableLogging: bool
    const dev: bool
    var log: seq<string>
    const session: Sessions.Session
    /** The requests sent so far */
    ghost var sent: seq<Request>

    /** The constructor stores the credentials and validates the login: with
        no truthy 'vinou' entry it logs in straight away; otherwise it probes
        the stored token and logs in again when the probe is not answered
        with 200 */
    constructor(token: Value, authid: Value, logging: bool, dev: bool, session: Sessions.Session,
                probe: CurlReply, loginReply: CurlReply)
      modifies session
      ensures authData == map["token" := token, "authid" := authid]
      ensures enableLogging == logging && this.dev == dev && this.session == session
      ensures !Truthy(old(session.GetValue("vinou"))) ==>
        sent == [Request(ApiUrl + "login", Arr(authData), Null)] &&
        log == Logged(logging, LoginLog(loginReply))
      ensures Truthy(old(session.GetValue("vinou"))) && probe.status == 200 ==>
        sent == [Request(ApiUrl + "check/login", Null, At(old(session.GetValue("vinou")), "token"))] &&
        log == Logged(logging, ["token valid"]) &&
        session.data == old(session.data) && session.framework == old(session.framework)
      ensures Truthy(old(session.GetValue("vinou"))) && probe.status != 200 ==>
        sent == [Request(ApiUrl + "check/login", Null, At(old(session.GetValue("vinou")), "token")),
                 Request(ApiUrl + "login", Arr(authData), Null)] &&
        log == Logged(logging, ["token expired"] + LoginLog(loginReply))
      ensures (!Truthy(old(session.GetValue("vinou"))) || probe.status != 200) && LoginSucceeded(loginReply) ==>
        session.GetValue("vinou") == TokenPair(loginReply.body)
      ensures (!Truthy(old(session.GetValue("vinou"))) || probe.status != 200) && LoginSucceeded(loginReply) ==>
        StoredTokenPair(session.env, old(session.data), old(session.framework), session.data, session.framework, loginReply)
      ensures (!Truthy(old(session.GetValue("vinou"))) || probe.status != 200) && !LoginSucceeded(loginReply) ==>
        session.data == old(session.data) && session.framework == old(session.framework)
    {
      authData := map["token" := token, "authid" := authid];
      enableLogging := logging;
      this.dev := dev;
      log := [];
      this.session := session;
      sent := [];
      new;
      var _ := ValidateLogin(probe, loginReply);
    }

    /** The bearer token the requests carry */
    function Bearer(): Value
      reads session
    {
      At(session.GetValue("vinou"), "token")
    }

    method WriteLog(entry: string)
      modifies this
      ensures log == old(log) + Logged(enableLogging, [entry])
      ensures sent == old(sent) && authData == old(authData)
    {
      if enableLogging {
        log := log + [entry];
      }
    }

    /** login: posts the credentials; on success returns the whole answer
        and, when cached, stores exactly the token pair under 'vinou' */
    method Login(cached: bool, reply: CurlReply) returns (r: Value)
      modifies this, session
      ensures sent == old(sent) + [Request(ApiUrl + "login", Arr(authData), Null)]
      ensures authData == old(authData)
      ensures LoginSucceeded(reply) ==> r == reply.body
      ensures LoginSucceeded(reply) ==>
        log == old(log) + Logged(enableLogging, ["login and write session", "login succeeded"])
      ensures LoginSucceeded(reply) && cached ==> session.GetValue("vinou") == TokenPair(reply.body)
      ensures LoginSucceeded(reply) && cached && session.env != Sessions.Typo3 ==>
        session.data == old(session.data)["vinou" := TokenPair(reply.body)] && session.framework == old(session.framework)
      ensures LoginSucceeded(reply) && cached && session.env == Sessions.Typo3 ==>
        session.framework == old(session.framework)["vinou" := TokenPair(reply.body)] && session.data == old(session.data)
      ensures !(LoginSucceeded(reply) && cached) ==>
        session.data == old(session.data) && session.framework == old(session.framework)
      ensures !LoginSucceeded(reply) ==>
        r == Bool(false) && log == old(log) + Logged(enableLogging, ["login and write session", "login failed"])
    {
      sent := sent + [Request(ApiUrl + "login", Arr(authData), Null)];
      WriteLog("login and write session");
      if reply.errno == 0 && IsSetAt(reply.body, "token") && IsSetAt(reply.body, "refreshToken") {
        WriteLog("login succeeded");
        if cached {
          var _ := session.SetValue("vinou", TokenPair(reply.body));
        }
        return reply.body;
      }
      WriteLog("login failed");
      return Bool(false);
    }

    /** validateLogin: without a truthy 'vinou' entry it logs in straight
        away (and returns nothing); otherwise it probes the token, logs in
        again when the probe is not answered with 200, and returns true */
    method ValidateLogin(probe: CurlReply, loginReply: CurlReply) returns (r: Value)
      modifies this, session
      ensures authData == old(authData)
      ensures !Truthy(old(session.GetValue("vinou"))) ==>
        r == Null && sent == old(sent) + [Request(ApiUrl + "login", Arr(authData), Null)] &&
        log == old(log) + Logged(enableLogging, LoginLog(loginReply))
      ensures Truthy(old(session.GetValue("vinou"))) ==>
        r == Bool(true) &&
        |sent| >= |old(sent)| + 1 &&
        sent[..|old(sent)| + 1] == old(sent) + [Request(ApiUrl + "check/login", Null, old(Bearer()))]
      ensures Truthy(old(session.GetValue("vinou"))) && probe.status == 200 ==>
        sent == old(sent) + [Request(ApiUrl + "check/login", Null, old(Bearer()))] &&
        session.data == old(session.data) && session.framework == old(session.framework) &&
        log == old(log) + Logged(enableLogging, ["token valid"])
      ensures Truthy(old(session.GetValue("vinou"))) && probe.status != 200 ==>
        sent == old(sent) + [Request(ApiUrl + "check/login", Null, old(Bearer())),
                             Request(ApiUrl + "login", Arr(authData), Null)] &&
        log == old(log) + Logged(enableLogging, ["token expired"] + LoginLog(loginReply))
      ensures (!Truthy(old(session.GetValue("vinou"))) || probe.status != 200) && LoginSucceeded(loginReply) ==>
        session.GetValue("vinou") == TokenPair(loginReply.body)
      ensures (!Truthy(old(session.GetValue("vinou"))) || probe.status != 200) && LoginSucceeded(loginReply) ==>
        StoredTokenPair(session.env, old(session.data), old(session.framework), session.data, session.framework, loginReply)
      ensures (!Truthy(old(session.GetValue("vinou"))) || probe.status != 200) && !LoginSucceeded(loginReply) ==>
        session.data == old(session.data) && session.framework == old(session.framework)
    {
      if !Truthy(session.GetValue("vinou")) {
        var _ := Login(true, loginReply);
        return Null;
      }
      sent := sent + [Request(ApiUrl + "check/login", Null, Bearer())];
      if probe.status != 200 {
        WriteLog("token expired");
        var _ := Login(true, loginReply);
      } else {
        WriteLog("token valid");
      }
      return Bool(true);
    }

    /** curlApiRoute: posts the data with the current token and classifies
        the status */
    method CurlApiRoute(route: string, data: Value, reply: CurlReply) returns (r: Value)
      modifies this
      ensures r == RouteResult(reply)
      ensures sent == old(sent) + [Request(ApiUrl + route, data, Bearer())]
      ensures log == old(log) + Logged(enableLogging, RouteLog(route, reply.status))
      ensures authData == old(authData)
    {
      sent := sent + [Request(ApiUrl + route, data, Bearer())];
      WriteLog("curl route " + ApiUrl + route);
      WriteLog("Status: " + NatToString(reply.status));
      r := RouteResult(reply);
    }

    /** getClientLogin: reports the client's address (in dev mode the one
        the userinfo route returns) and hands back the login without id and
        info, or false */
    method GetClientLogin(remoteAddr: Value, userAgent: Value, ipReply: CurlReply, reply: CurlReply)
      returns (r: Value)
      modifies this
      ensures r == ClientLoginResult(RouteResult(reply))
      ensures !dev ==> sent == old(sent) + [Request(ApiUrl + "clients/login",
        Arr(map["ip" := remoteAddr, "userAgent" := userAgent]), Bearer())]
      ensures dev ==> sent == old(sent) + [Request(ApiUrl + "check/userinfo", Arr(map[]), Bearer()),
        Request(ApiUrl + "clients/login", Arr(map["ip" := At(RouteResult(ipReply), "ip"), "userAgent" := userAgent]), Bearer())]
      ensures !dev ==> log == old(log) + Logged(enableLogging, RouteLog("clients/login", reply.status))
      ensures dev ==> log == old(log) + Logged(enableLogging, RouteLog("check/userinfo", ipReply.status) +
                                                               RouteLog("clients/login", reply.status))
      ensures authData == old(authData)
    {
      var postData := map["ip" := remoteAddr, "userAgent" := userAgent];
      if dev {
        var info := CurlApiRoute("check/userinfo", Arr(map[]), ipReply);
        postData := postData["ip" := At(info, "ip")];
        assert postData == map["ip" := At(RouteResult(ipReply), "ip"), "userAgent" := userAgent];
      }
      var result := CurlApiRoute("clients/login", Arr(postData), reply);
      if IsSetAt(result, "token") && IsSetAt(result, "refreshToken") {
        return Arr(result.a - {"id", "info"});
      }
      return Bool(false);
    }

    /** getBasket: the data of the basket with that uuid, or false */
    method GetBasket(uuid: Value, reply: CurlReply) returns (r: Value)
      modifies this
      ensures r == BasketData(RouteResult(reply))
      ensures sent == old(sent) + [Request(ApiUrl + "baskets/get", Arr(map["uuid" := uuid]), Bearer())]
      ensures log == old(log) + Logged(enableLogging, RouteLog("baskets/get", reply.status))
      ensures authData == old(authData)
    {
      var result := CurlApiRoute("baskets/get", Arr(map["uuid" := uuid]), reply);
      r := if IsSetAt(result, "data") then At(result, "data") else Bool(false);
    }

    /** findPackage: the data entry of the answer (null when missing) */
    method FindPackage(packageType: string, count: Value, reply: CurlReply) returns (r: Value)
      modifies this
      ensures r == At(RouteResult(reply), "data")
      ensures sent == old(sent) + [Request(ApiUrl + "packaging/find", Arr(PackagePayload(packageType, count)), Bearer())]
      ensures log == old(log) + Logged(enableLogging, RouteLog("packaging/find", reply.status))
      ensures authData == old(authData)
    {
      var postData := map["type" := Str(packageType)];
      postData := postData[packageType := count];
      var result := CurlApiRoute("packaging/find", Arr(postData), reply);
      r := At(result, "data");
    }
  }
}
