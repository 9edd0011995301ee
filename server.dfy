/** The HTTP layer of server.js: the `basicAuth` decision, the JSON envelope
    every `/api` route answers with, the payload each route puts under
    `data`, and the order in which a request is authenticated and then
    served. Express's `res` is replaced by the returned `Response`. */
module Server {
  import opened Results
  import opened Strings
  import Arrays
  import opened Exec
  import opened Controller

  /** A JSON value as `res.json` serialises it; numbers are JavaScript numbers,
      taken here as reals. */
  datatype Json =
    | JString(s: string)
    | JNumber(n: real)
    | JBool(b: bool)
    | JArray(items: seq<Json>)
    | JObject(members: seq<Member>)

  datatype Member = Member(key: string, value: Json)

  /** An HTTP status code with a JSON body. */
  datatype Response = Response(status: nat, body: Json)

  /** The member names of an object, in order; none for other values. */
  function Keys(j: Json): seq<string> {
    match j
    case JObject(members) => Arrays.Map(members, (m: Member) => m.key)
    case _ => []
  }

  function LookupIn(members: seq<Member>, key: string): Option<Json> {
    if members == [] then None
    else if members[0].key == key then Some(members[0].value)
    else LookupIn(members[1..], key)
  }

  /** The value of property `key` of an object, None when it has none. */
  function Get(j: Json, key: string): Option<Json> {
    match j
    case JObject(members) => LookupIn(members, key)
    case _ => None
  }

  /** A one-property object `{ key: value }`. */
  function Field(key: string, value: Json): (j: Json)
    ensures Keys(j) == [key] && Get(j, key) == Some(value)
  {
    JObject([Member(key, value)])
  }

  // ---------------------------------------------------------------------
  // Authentication (server.js:24-44)

  const AuthRequired: string := "Authentication required"
  const InvalidCredentials: string := "Invalid credentials"

  /** `config.web_interface.auth`. */
  datatype AuthConfig = AuthConfig(enabled: bool, username: string, password: string)

  /** A request's Authorization header: its raw text, and the base64 decoding
      of its second space-separated word (the decoding is an input). */
  datatype Authorization = Authorization(header: string, decoded: string)

  datatype AuthDecision = Proceed | Deny(reason: string)

  /** `basicAuth`. With authentication disabled every request proceeds. A
      missing or empty header is refused as "Authentication required".
      Otherwise the decoded text is split at ':' and its first two fields
      (the second `undefined` when there is no ':') must equal the
      configured username and password; any other value is refused as
      "Invalid credentials". */
  function BasicAuth(config: AuthConfig, authorization: Option<Authorization>): (d: AuthDecision)
    ensures !config.enabled ==> d == Proceed
    ensures d.Deny? ==> d.reason == AuthRequired || d.reason == InvalidCredentials
    ensures d == Deny(AuthRequired) <==>
              config.enabled && (authorization.None? || authorization.value.header == "")
  {
    if !config.enabled then Proceed
    else if authorization.None? || authorization.value.header == "" then Deny(AuthRequired)
    else
      var credentials := Split(authorization.value.decoded, ':');
      var username := credentials[0];
      var password := if |credentials| > 1 then Some(credentials[1]) else None;
      if username == config.username && password == Some(config.password) then Proceed
      else Deny(InvalidCredentials)
  }

  /** The 401 answer of `basicAuth`: only an `error` property. */
  function Unauthorized(reason: string): (resp: Response)
    ensures resp.status == 401
    ensures Keys(resp.body) == ["error"] && Get(resp.body, "error") == Some(JString(reason))
    ensures Get(resp.body, "success") == None && Get(resp.body, "data") == None
  {
    var body := Field("error", JString(reason));
    assert body.members[1..] == [];
    assert LookupIn(body.members, "success") == LookupIn([], "success");
    assert LookupIn(body.members, "data") == LookupIn([], "data");
    Response(401, body)
  }

  // ---------------------------------------------------------------------
  // The envelope of every /api route (server.js:47-159)

  /** `res.json({ success: true, data })`, with the default status 200. */
  function OkResponse(data: Json): (resp: Response)
    ensures resp.status == 200
    ensures Keys(resp.body) == ["success", "data"]
    ensures Get(resp.body, "success") == Some(JBool(true)) && Get(resp.body, "data") == Some(data)
  {
    var members := [Member("success", JBool(true)), Member("data", data)];
    assert members[1..] == [Member("data", data)];
    assert LookupIn(members, "data") == LookupIn(members[1..], "data");
    Response(200, JObject(members))
  }

  /** `res.status(500).json({ success: false, error: error.message })`. */
  function ServerErrorResponse(message: string): (resp: Response)
    ensures resp.status == 500
    ensures Keys(resp.body) == ["success", "error"]
    ensures Get(resp.body, "success") == Some(JBool(false)) && Get(resp.body, "error") == Some(JString(message))
    ensures Get(resp.body, "data") == None
  {
    var members := [Member("success", JBool(false)), Member("error", JString(message))];
    assert members[1..] == [Member("error", JString(message))];
    assert members[1..][1..] == [];
    assert LookupIn(members, "error") == LookupIn(members[1..], "error");
    assert LookupIn(members, "data") == LookupIn(members[1..], "data") == LookupIn([], "data");
    Response(500, JObject(members))
  }

  function NamesJson(names: seq<string>): Json {
    JArray(Arrays.Map(names, (n: string) => JString(n)))
  }

  /** The `info` record as JSON: the eight host properties, then
      `temperature` when the record has one. */
  function InfoJson(info: SystemInfo): Json {
    var h := info.host;
    JObject([
      Member("platform", JString(h.platform)),
      Member("arch", JString(h.arch)),
      Member("hostname", JString(h.hostname)),
      Member("uptime", JNumber(h.uptime)),
      Member("loadavg", JArray(Arrays.Map(h.loadavg, (x: real) => JNumber(x)))),
      Member("totalmem", JNumber(h.totalmem as real)),
      Member("freemem", JNumber(h.freemem as real)),
      Member("cpus", JNumber(h.cpus as real))
    ] + match info.temperature
        case Some(t) => [Member("temperature", JString(t))]
        case None => [])
  }

  function StatusJson(s: ServiceStatus): Json {
    JObject([Member("service", JString(s.service)), Member("status", JString(s.status)), Member("active", JBool(s.active))])
  }

  // ---------------------------------------------------------------------
  // Routes

  /** The routes of the API router, with the parameters their handlers read,
      and the unauthenticated health check (registered only on the dashboard
      app; the API app mounts only the router). `GpioPost.state` is the `state`
      property of the JSON body, None when the body has none. */
  datatype Route =
    | SystemInfoGet
    | TemperatureGet
    | MemoryGet
    | DiskGet
    | WifiStatusGet
    | WifiScanGet
    | GpioGet(pin: string)
    | GpioPost(pin: string, state: Option<string>)
    | ServiceStatusGet(name: string)
    | ServicePost(name: string, action: string)
    | RebootPost
    | ShutdownPost
    | HealthGet

  /** A value interpolated into a template literal: `undefined` when absent. */
  function TemplateText(v: Option<string>): string {
    match v
    case Some(s) => s
    case None => "undefined"
  }

  /** The controller operation a route's handler awaits. */
  function OperationOf(route: Route, host: HostInfo): Operation
    requires !route.HealthGet?
  {
    match route
    case SystemInfoGet => InfoOp(host)
    case TemperatureGet => TemperatureOp
    case MemoryGet => MemoryOp
    case DiskGet => DiskOp
    case WifiStatusGet => WifiStatusOp
    case WifiScanGet => WifiScanOp
    case GpioGet(pin) => GetGpioOp(pin)
    case GpioPost(pin, state) => SetGpioOp(pin, TemplateText(state))
    case ServiceStatusGet(name) => ServiceStatusOp(name)
    case ServicePost(name, action) => ServiceControlOp(name, action)
    case RebootPost => RebootOp
    case ShutdownPost => ShutdownOp
  }

  /** What a route's handler puts under `data` for the value it awaited. */
  function Payload(route: Route, v: Value): Json {
    match v
    case Info(info) => InfoJson(info)
    case Status(s) => StatusJson(s)
    case Networks(names) => Field("networks", NamesJson(names))
    case Text(t) =>
      match route
      case TemperatureGet => Field("temperature", JString(t))
      case MemoryGet => Field("memory", JString(t))
      case DiskGet => Field("disk", JString(t))
      case WifiStatusGet => Field("status", JString(t))
      case GpioGet(pin) => JObject([Member("pin", JString(pin)), Member("state", JString(t))])
      case _ => Field("message", JString(t))
  }

  /** `GET /health`; the timestamp is the clock's reading, an input. */
  function HealthResponse(now: string): Response {
    Response(200, JObject([
      Member("status", JString("healthy")),
      Member("timestamp", JString(now)),
      Member("version", JString("1.0.0"))]))
  }

  /** The response to a request on `route`, for a controller whose platform
      flag is `isPi` and whose shell answers `exec`. */
  function Serve(config: AuthConfig, authorization: Option<Authorization>, route: Route,
                 isPi: bool, exec: string -> ExecOutcome, host: HostInfo, now: string): Response
  {
    if route.HealthGet? then HealthResponse(now)
    else
      match BasicAuth(config, authorization)
      case Deny(reason) => Unauthorized(reason)
      case Proceed =>
        match Perform(isPi, OperationOf(route, host), exec)
        case Success(v) => OkResponse(Payload(route, v))
        case Failure(message) => ServerErrorResponse(message)
  }

  /** The command lines serving the request issues. */
  function ServeIssues(config: AuthConfig, authorization: Option<Authorization>, route: Route,
                       isPi: bool, host: HostInfo): seq<string>
  {
    if route.HealthGet? || BasicAuth(config, authorization).Deny? then []
    else Issued(isPi, OperationOf(route, host))
  }

  // ---------------------------------------------------------------------
  // Properties of authentication

  /** With a username and a password free of ':', a present header is
      accepted exactly when its decoded text is `username:password`, possibly
      followed by ':' and anything at all. */
  lemma CredentialsAccepted(config: AuthConfig, authorization: Option<Authorization>)
    requires config.enabled && authorization.Some? && authorization.value.header != ""
    requires ':' !in config.username && ':' !in config.password
    ensures var d, expected := authorization.value.decoded, config.username + ":" + config.password;
            BasicAuth(config, authorization) == Proceed <==> d == expected || expected + ":" <= d
  {
    var d := authorization.value.decoded;
    var u, p := config.username, config.password;
    var expected := u + ":" + p;
    var parts := Split(d, ':');
    if d == expected {
      assert d == u + [':'] + p;
      SplitFields(u, p, [], ':');
    } else if expected + ":" <= d {
      var rest := d[|expected| + 1..];
      assert d == u + [':'] + p + [':'] + rest;
      SplitFields(u, p, rest, ':');
    }
    if BasicAuth(config, authorization) == Proceed {
      assert |parts| > 1 && parts[0] == u && parts[1] == p;
      assert d == u + ":" + Join(parts[1..], ":");
      if |parts| == 2 {
        assert Join(parts[1..], ":") == p;
      } else {
        assert parts[1..][1..] == parts[2..];
        assert Join(parts[1..], ":") == p + ":" + Join(parts[2..], ":");
        assert d == expected + ":" + Join(parts[2..], ":");
      }
    }
  }

  /** Only the first two ':'-separated fields are compared: whatever follows
      a second ':' is ignored, so a supplied password is cut at its first
      ':'. */
  lemma PasswordTruncatedAtColon(config: AuthConfig, header: string, user: string, password: string, extra: string)
    requires ':' !in user && ':' !in password
    ensures BasicAuth(config, Some(Authorization(header, user + ":" + password + ":" + extra)))
              == BasicAuth(config, Some(Authorization(header, user + ":" + password)))
  {
    assert user + ":" + password + ":" + extra == user + [':'] + password + [':'] + extra;
    assert user + ":" + password == user + [':'] + password;
    SplitFields(user, password, extra, ':');
  }

  /** A configured username or password containing ':' can never be
      matched, since neither of the two fields compared holds a ':'; so with
      authentication enabled every request is refused. */
  lemma ColonCredentialsNeverMatch(config: AuthConfig, authorization: Option<Authorization>)
    requires ':' in config.username || ':' in config.password
    ensures BasicAuth(config, authorization) == Proceed <==> !config.enabled
  {
  }

  /** With authentication disabled nothing about the request is inspected. */
  lemma AuthDisabledIgnoresHeader(config: AuthConfig, a1: Option<Authorization>, a2: Option<Authorization>)
    requires !config.enabled
    ensures BasicAuth(config, a1) == BasicAuth(config, a2) == Proceed
  {
  }

  /** The two refusals differ only in their message. */
  lemma RefusalsShareStatus(config: AuthConfig, authorization: Option<Authorization>)
    requires BasicAuth(config, authorization).Deny?
    ensures var resp := Unauthorized(BasicAuth(config, authorization).reason);
            resp.status == 401 && Keys(resp.body) == ["error"]
            && (Get(resp.body, "error") == Some(JString("Authentication required"))
                || Get(resp.body, "error") == Some(JString("Invalid credentials")))
  {
  }

  /** The "admin"/"secret" configuration accepts "admin:secret".
      (The literal text is a parameter fixed by `requires` so that the
      recursive string functions are not unfolded on it character by
      character.) */
  lemma AdminSecretAccepted(config: AuthConfig, authorization: Option<Authorization>)
    requires config == AuthConfig(true, "admin", "secret")
    requires authorization == Some(Authorization("Basic YWRtaW46c2VjcmV0", "admin:secret"))
    ensures BasicAuth(config, authorization) == Proceed
  {
    assert authorization.value.decoded == config.username + ":" + config.password;
    CredentialsAccepted(config, authorization);
  }

  /** The "admin"/"secret" configuration refuses "admin:wrong".
      (The literal text is a parameter fixed by `requires` so that the
      recursive string functions are not unfolded on it character by
      character.) */
  lemma AdminWrongRefused(config: AuthConfig, authorization: Option<Authorization>)
    requires config == AuthConfig(true, "admin", "secret")
    requires authorization == Some(Authorization("Basic YWRtaW46d3Jvbmc=", "admin:wrong"))
    ensures BasicAuth(config, authorization) == Deny(InvalidCredentials)
  {
    var expected := config.username + ":" + config.password;
    var d := authorization.value.decoded;
    assert |expected| == 12 && expected[6] == 's';
    assert |d| == 11 && d[6] == 'w';
    assert !(expected + ":" <= d);
    CredentialsAccepted(config, authorization);
  }

  /** A request that `basicAuth` lets through gets its handler's answer. */
  lemma AcceptedRequestServed(config: AuthConfig, authorization: Option<Authorization>, route: Route,
                              isPi: bool, exec: string -> ExecOutcome, host: HostInfo, now: string)
    requires !route.HealthGet? && BasicAuth(config, authorization) == Proceed
    ensures Serve(config, authorization, route, isPi, exec, host, now)
              == match Perform(isPi, OperationOf(route, host), exec)
                 case Success(v) => OkResponse(Payload(route, v))
                 case Failure(message) => ServerErrorResponse(message)
  {
  }

  /** With "admin"/"secret" configured, the right credentials reach the
      memory handler and get 200 with its data.
      (The literal text is a parameter fixed by `requires` so that the
      recursive string functions are not unfolded on it character by
      character.) */
  lemma AdminSecretServed(config: AuthConfig, authorization: Option<Authorization>,
                          isPi: bool, exec: string -> ExecOutcome, host: HostInfo, now: string)
    requires config == AuthConfig(true, "admin", "secret")
    requires authorization == Some(Authorization("Basic YWRtaW46c2VjcmV0", "admin:secret"))
    requires exec("free -h").Ok?
    ensures Serve(config, authorization, MemoryGet, isPi, exec, host, now)
              == OkResponse(Field("memory", JString(exec("free -h").stdout)))
  {
    var stdout := exec("free -h").stdout;
    assert Perform(isPi, MemoryOp, exec) == Success(Text(stdout));
    assert Payload(MemoryGet, Text(stdout)) == Field("memory", JString(stdout));
    AdminSecretAccepted(config, authorization);
    AcceptedRequestServed(config, authorization, MemoryGet, isPi, exec, host, now);
  }

  /** With "admin"/"secret" configured, a wrong password gets 401 with an
      error and no data.
      (The literal text is a parameter fixed by `requires` so that the
      recursive string functions are not unfolded on it character by
      character.) */
  lemma AdminWrongUnauthorized(config: AuthConfig, authorization: Option<Authorization>,
                               isPi: bool, exec: string -> ExecOutcome, host: HostInfo, now: string)
    requires config == AuthConfig(true, "admin", "secret")
    requires authorization == Some(Authorization("Basic YWRtaW46d3Jvbmc=", "admin:wrong"))
    ensures var resp := Serve(config, authorization, MemoryGet, isPi, exec, host, now);
            resp.status == 401 && Get(resp.body, "error") == Some(JString("Invalid credentials")) && Get(resp.body, "data") == None
  {
    AdminWrongRefused(config, authorization);
  }

  // ---------------------------------------------------------------------
  // Properties of the routes

  /** A request that `basicAuth` refuses gets the 401 answer and reaches no
      controller operation: no command is issued. */
  lemma RefusedRequestsRunNothing(config: AuthConfig, authorization: Option<Authorization>, route: Route,
                                  isPi: bool, exec: string -> ExecOutcome, host: HostInfo, now: string)
    requires !route.HealthGet? && BasicAuth(config, authorization).Deny?
    ensures ServeIssues(config, authorization, route, isPi, host) == []
    ensures Serve(config, authorization, route, isPi, exec, host, now)
              == Unauthorized(BasicAuth(config, authorization).reason)
  {
  }

  /** The health check is not guarded: it answers whatever the credentials. */
  lemma HealthUnguarded(config: AuthConfig, authorization: Option<Authorization>,
                        isPi: bool, exec: string -> ExecOutcome, host: HostInfo, now: string)
    ensures Serve(config, authorization, HealthGet, isPi, exec, host, now) == HealthResponse(now)
    ensures HealthResponse(now).status == 200
    ensures ServeIssues(config, authorization, HealthGet, isPi, host) == []
  {
  }

  /** Every /api route answers 401 exactly when `basicAuth` refuses, 200 with
      `{success: true, data}` exactly when its operation resolves, and 500
      with `{success: false, error}` and no data exactly when it rejects. */
  lemma StatusCodes(config: AuthConfig, authorization: Option<Authorization>, route: Route,
                    isPi: bool, exec: string -> ExecOutcome, host: HostInfo, now: string)
    requires !route.HealthGet?
    ensures var resp := Serve(config, authorization, route, isPi, exec, host, now);
            var result := Perform(isPi, OperationOf(route, host), exec);
            && (resp.status == 401 <==> BasicAuth(config, authorization).Deny?)
            && (resp.status == 200 <==> BasicAuth(config, authorization).Proceed? && result.Success?)
            && (resp.status == 500 <==> BasicAuth(config, authorization).Proceed? && result.Failure?)
            && (resp.status == 500 ==> Get(resp.body, "error") == Some(JString(result.message))
                                       && Get(resp.body, "data") == None)
  {
  }

  /** The system-info and service-status routes never answer 500. */
  lemma TolerantRoutes(config: AuthConfig, authorization: Option<Authorization>, route: Route,
                       isPi: bool, exec: string -> ExecOutcome, host: HostInfo, now: string)
    requires route.SystemInfoGet? || route.ServiceStatusGet?
    requires BasicAuth(config, authorization).Proceed?
    ensures Serve(config, authorization, route, isPi, exec, host, now).status == 200
  {
  }

  /** The system-info payload lists the eight host properties, then
      `temperature` exactly when a reading was obtained. */
  lemma InfoKeys(info: SystemInfo)
    ensures Keys(InfoJson(info)) == ["platform", "arch", "hostname", "uptime", "loadavg", "totalmem", "freemem", "cpus"]
                                    + (if info.temperature.Some? then ["temperature"] else [])
    ensures "temperature" in Keys(InfoJson(info)) <==> info.temperature.Some?
  {
    var h := info.host;
    var base := [
      Member("platform", JString(h.platform)),
      Member("arch", JString(h.arch)),
      Member("hostname", JString(h.hostname)),
      Member("uptime", JNumber(h.uptime)),
      Member("loadavg", JArray(Arrays.Map(h.loadavg, (x: real) => JNumber(x)))),
      Member("totalmem", JNumber(h.totalmem as real)),
      Member("freemem", JNumber(h.freemem as real)),
      Member("cpus", JNumber(h.cpus as real))];
    var extra := match info.temperature
        case Some(t) => [Member("temperature", JString(t))]
        case None => [];
    var key := (m: Member) => m.key;
    assert InfoJson(info).members == base + extra;
    Arrays.MapConcat(base, extra, key);
    var bk := Arrays.Map(base, key);
    assert |bk| == 8;
    assert bk == ["platform", "arch", "hostname", "uptime", "loadavg", "totalmem", "freemem", "cpus"];
    assert Arrays.Map(extra, key) == (if info.temperature.Some? then ["temperature"] else []);
    assert "temperature" !in bk;
  }

  /** The property names each route puts under `data` when its operation
      resolves. */
  lemma PayloadKeys(route: Route, isPi: bool, exec: string -> ExecOutcome, host: HostInfo)
    requires !route.HealthGet? && Perform(isPi, OperationOf(route, host), exec).Success?
    ensures var v := Perform(isPi, OperationOf(route, host), exec).value;
            var keys := Keys(Payload(route, v));
            && (route.SystemInfoGet? ==>
                  keys == ["platform", "arch", "hostname", "uptime", "loadavg", "totalmem", "freemem", "cpus"]
                          + (if v.info.temperature.Some? then ["temperature"] else []))
            && (route.TemperatureGet? ==> keys == ["temperature"])
            && (route.MemoryGet? ==> keys == ["memory"])
            && (route.DiskGet? ==> keys == ["disk"])
            && (route.WifiStatusGet? ==> keys == ["status"])
            && (route.WifiScanGet? ==> keys == ["networks"])
            && (route.GpioGet? ==> keys == ["pin", "state"])
            && (route.ServiceStatusGet? ==> keys == ["service", "status", "active"])
            && (route.GpioPost? || route.ServicePost? || route.RebootPost? || route.ShutdownPost? ==> keys == ["message"])
  {
    var op := OperationOf(route, host);
    var v := Perform(isPi, op, exec).value;
    ResolvedValueKind(isPi, op, exec);
    match v
    case Info(info) => InfoKeys(info);
    case Status(st) =>
    case Networks(_) =>
    case Text(t) =>
      if route.GpioGet? {
        assert Keys(Payload(route, v)) == ["pin", "state"];
      }
  }

  /** A GPIO write whose body has no `state` forwards the text "undefined". */
  lemma GpioPostWithoutState(pin: string, exec: string -> ExecOutcome, host: HostInfo)
    requires exec(CommandLine(SetGpioOp(pin, "undefined"))).Ok?
    ensures OperationOf(GpioPost(pin, None), host) == SetGpioOp(pin, "undefined")
    ensures Perform(true, OperationOf(GpioPost(pin, None), host), exec) == Success(Text("GPIO " + pin + " set to " + "undefined"))
  {
  }

  /** Serves one request: the health check at once; every other route first
      through `basicAuth`, and only when it lets the request proceed through
      the route's handler. */
  method Handle(controller: RaspberryPiController, config: AuthConfig, authorization: Option<Authorization>,
                route: Route, host: HostInfo, now: string) returns (resp: Response)
    modifies controller.shell
    ensures resp == Serve(config, authorization, route, controller.isRaspberryPi, controller.shell.respond, host, now)
    ensures controller.shell.log
              == old(controller.shell.log) + ServeIssues(config, authorization, route, controller.isRaspberryPi, host)
  {
    if route.HealthGet? {
      return HealthResponse(now);
    }
    var decision := BasicAuth(config, authorization);
    if decision.Deny? {
      return Unauthorized(decision.reason);
    }
    resp := RunHandler(controller, route, host);
  }

  /** A route's handler: awaits its controller operation and wraps the
      outcome in the envelope, 200 with the route's payload or 500 with the
      error's message. */
  method RunHandler(controller: RaspberryPiController, route: Route, host: HostInfo) returns (resp: Response)
    requires !route.HealthGet?
    modifies controller.shell
    ensures resp == match Perform(controller.isRaspberryPi, OperationOf(route, host), controller.shell.respond)
                    case Success(v) => OkResponse(Payload(route, v))
                    case Failure(message) => ServerErrorResponse(message)
    ensures controller.shell.log
              == old(controller.shell.log) + Issued(controller.isRaspberryPi, OperationOf(route, host))
  {
    match route
    case SystemInfoGet =>
      var info := controller.GetSystemInfo(host);
      resp := OkResponse(InfoJson(info));
    case TemperatureGet =>
      var r := controller.GetCPUTemperature();
      resp := if r.Success? then OkResponse(Field("temperature", JString(r.value))) else ServerErrorResponse(r.message);
    case MemoryGet =>
      var r := controller.GetMemoryInfo();
      resp := if r.Success? then OkResponse(Field("memory", JString(r.value))) else ServerErrorResponse(r.message);
    case DiskGet =>
      var r := controller.GetDiskUsage();
      resp := if r.Success? then OkResponse(Field("disk", JString(r.value))) else ServerErrorResponse(r.message);
    case WifiStatusGet =>
      var r := controller.GetWiFiStatus();
      resp := if r.Success? then OkResponse(Field("status", JString(r.value))) else ServerErrorResponse(r.message);
    case WifiScanGet =>
      var r := controller.ScanWiFi();
      resp := if r.Success? then OkResponse(Field("networks", NamesJson(r.value))) else ServerErrorResponse(r.message);
    case GpioGet(pin) =>
      var r := controller.GetGPIO(pin);
      resp := if r.Success? then OkResponse(JObject([Member("pin", JString(pin)), Member("state", JString(r.value))]))
              else ServerErrorResponse(r.message);
    case GpioPost(pin, state) =>
      var r := controller.SetGPIO(pin, TemplateText(state));
      resp := if r.Success? then OkResponse(Field("message", JString(r.value))) else ServerErrorResponse(r.message);
    case ServiceStatusGet(name) =>
      var status := controller.GetServiceStatus(name);
      resp := OkResponse(StatusJson(status));
    case ServicePost(name, action) =>
      var r := controller.ControlService(name, action);
      resp := if r.Success? then OkResponse(Field("message", JString(r.value))) else ServerErrorResponse(r.message);
    case RebootPost =>
      var r := controller.Reboot();
      resp := if r.Success? then OkResponse(Field("message", JString(r.value))) else ServerErrorResponse(r.message);
    case ShutdownPost =>
      var r := controller.Shutdown();
      resp := if r.Success? then OkResponse(Field("message", JString(r.value))) else ServerErrorResponse(r.message);
  }
}
