/** `obsidian.server.config.spec.Obsidian`: the server's settings and the
    credential check shared by the REST endpoints and the websocket. */
module ServerConfig {
  import opened Wrappers
  import opened KotlinInt

  datatype Config = Config(requireClientName: bool, playerUpdateInterval: Long, host: string, port: Int, auth: string)

  /** Every optional setting at its default. */
  const Default: Config := Config(false, 5000, "0.0.0.0", 3030, "")

  /** `Server.validateAuth`: an empty configured auth accepts everything,
      a configured one only itself. */
  function ValidateAuth(auth: string, given: Option<string>): (r: bool)
    ensures auth == [] ==> r
    ensures auth != [] ==> (r <==> given.Some? && given.value == auth)
  {
    auth == [] || given == Some(auth)
  }

  /** The default configuration lets every request through, with or without
      a credential. */
  lemma DefaultAcceptsAnyCredential(given: Option<string>)
    ensures ValidateAuth(Default.auth, given)
  {
  }
}

/** `obsidian.server.util.config.ObsidianConfig`: the legacy settings, whose
    password has no default. */
module LegacyConfig {
  import opened Wrappers
  import opened KotlinInt
  import ServerConfig

  datatype Config = Config(port: Int, password: string, immediatelyProvide: bool, playerUpdateInterval: Long)

  /** Reading the settings: an unset password fails, every other setting
      falls back to its default. */
  function Load(port: Option<Int>, password: Option<string>, immediatelyProvide: Option<bool>,
                playerUpdateInterval: Option<Long>): (r: Result<Config, Failure>)
    ensures r.Err? <==> password.None?
    ensures r.Err? ==> r.error == UnsetValue
    ensures r.Ok? ==> r.value.password == password.value
    ensures r.Ok? ==> r.value.port == (if port.Some? then port.value else 3030)
    ensures r.Ok? ==> r.value.immediatelyProvide == (if immediatelyProvide.Some? then immediatelyProvide.value else true)
    ensures r.Ok? ==> r.value.playerUpdateInterval == (if playerUpdateInterval.Some? then playerUpdateInterval.value else 5000)
  {
    match password
    case None => Err(UnsetValue)
    case Some(p) =>
      Ok(Config(if port.Some? then port.value else 3030, p,
                if immediatelyProvide.Some? then immediatelyProvide.value else true,
                if playerUpdateInterval.Some? then playerUpdateInterval.value else 5000))
  }

  /** `validateAuth`, written per credential. */
  function ValidateAuth(password: string, given: Option<string>): (r: bool)
  {
    match given
    case None => |password| == 0
    case Some(g) => |password| == 0 || g == password
  }

  /** Both configuration schemes accept exactly the same credentials. */
  lemma AgreesWithServerConfig(password: string, given: Option<string>)
    ensures ValidateAuth(password, given) == ServerConfig.ValidateAuth(password, given)
  {
  }

  /** A configured password turns away a request with no credential. */
  lemma MissingCredentialRejected(password: string)
    requires password != []
    ensures !ValidateAuth(password, None)
  {
  }
}

/** `obsidian.server.util.AuthorizationPipeline`: the REST authentication
    provider. */
module AuthorizationPipeline {
  import opened Wrappers
  import ServerConfig

  datatype Cause = NoCredentials | InvalidCredentials

  /** A challenge answers the call with its status. */
  datatype Challenge = Challenge(cause: Cause, status: int)

  const UNAUTHORIZED: int := 401

  /** The credential: the Authorization header, else the "auth" query
      parameter. */
  function Credential(authorization: Option<string>, authQuery: Option<string>): (r: Option<string>)
    ensures r.Some? <==> authorization.Some? || authQuery.Some?
    ensures authorization.Some? ==> r == authorization
    ensures authorization.None? ==> r == authQuery
  {
    if authorization.Some? then authorization else authQuery
  }

  /** The interceptor: no challenge for a valid credential; otherwise a 401
      whose cause tells an absent credential from a wrong one. */
  function Intercept(auth: string, authorization: Option<string>, authQuery: Option<string>): (r: Option<Challenge>)
    ensures r.None? <==> ServerConfig.ValidateAuth(auth, Credential(authorization, authQuery))
    ensures r.Some? ==> r.value.status == UNAUTHORIZED
    ensures r.Some? ==> (r.value.cause == NoCredentials <==> authorization.None? && authQuery.None?)
  {
    var credential := Credential(authorization, authQuery);
    if ServerConfig.ValidateAuth(auth, credential) then None
    else Some(Challenge(if credential.None? then NoCredentials else InvalidCredentials, UNAUTHORIZED))
  }
}

/** `obsidian.server.io.Magma`: the websocket admission ladder, the REST
    client-name intercept and the client registry. */
module Magma {
  import opened Wrappers
  import opened KotlinInt
  import ServerConfig
  import AuthorizationPipeline
  import LongAsString

  /** Close codes of `obsidian.server.io.ws.CloseReasons`. */
  const INVALID_AUTHORIZATION: int := 4001
  const MISSING_CLIENT_NAME: int := 4002
  const MISSING_USER_ID: int := 4003
  const DUPLICATE_SESSION: int := 4005

  const BAD_REQUEST: int := 400

  /** The parts of an upgrade or REST request the server looks at. */
  datatype Request = Request(clientNameHeader: Option<string>, clientNameQuery: Option<string>,
                             authorization: Option<string>, authQuery: Option<string>,
                             userIdHeader: Option<string>, userIdQuery: Option<string>,
                             resumeKey: Option<string>)

  /** A client's websocket handler, as far as admission sees it. */
  datatype Handler = Handler(resumeKey: Option<string>)

  /** A handler that has just been created: no resume key is set up yet. */
  const FreshHandler: Handler := Handler(None)

  datatype Client = Client(userId: Long, name: Option<string>, websocket: Option<Handler>)

  datatype Outcome = Closed(code: int) | Resumed | Handled

  /** `clientName`: the header, else the query parameter. */
  function ClientName(req: Request): (r: Option<string>)
    ensures req.clientNameHeader.Some? ==> r == req.clientNameHeader
    ensures req.clientNameHeader.None? ==> r == req.clientNameQuery
  {
    if req.clientNameHeader.Some? then req.clientNameHeader else req.clientNameQuery
  }

  /** Kotlin's `Char.isWhitespace`: Java whitespace or a Unicode space
      character. */
  predicate IsWhitespace(c: char)
  {
    '\U{9}' <= c <= '\U{D}' || '\U{1C}' <= c <= '\U{20}' || c == '\U{A0}' || c == '\U{1680}' ||
    '\U{2000}' <= c <= '\U{200A}' || c == '\U{2028}' || c == '\U{2029}' || c == '\U{202F}' ||
    c == '\U{205F}' || c == '\U{3000}'
  }

  /** `isNullOrBlank`. */
  function IsNullOrBlank(s: Option<string>): (r: bool)
    ensures s == None ==> r
    ensures s.Some? && |s.value| > 0 && !IsWhitespace(s.value[0]) ==> !r
    ensures r <==> s.None? || forall i :: 0 <= i < |s.value| ==> IsWhitespace(s.value[i])
  {
    match s
    case None => true
    case Some(v) => forall i :: 0 <= i < |v| ==> IsWhitespace(v[i])
  }

  /** `String.toLongOrNull`. */
  function ToLongOrNull(s: Option<string>): (r: Option<Long>)
    ensures r.Some? <==> s.Some? && LongAsString.ParseLong(s.value).Ok?
    ensures r.Some? ==> r.value == LongAsString.ParseLong(s.value).value
  {
    if s.Some? && LongAsString.ParseLong(s.value).Ok? then Some(LongAsString.ParseLong(s.value).value) else None
  }

  /** `extractUserId`: the header's id, else the query parameter's; a value
      that is not a number counts as absent. */
  function UserId(req: Request): (r: Option<Long>)
    ensures r.None? <==> ToLongOrNull(req.userIdHeader).None? && ToLongOrNull(req.userIdQuery).None?
    ensures ToLongOrNull(req.userIdHeader).Some? ==> r == ToLongOrNull(req.userIdHeader)
    ensures ToLongOrNull(req.userIdHeader).None? ==> r == ToLongOrNull(req.userIdQuery)
  {
    var header := ToLongOrNull(req.userIdHeader);
    if header.Some? then header else ToLongOrNull(req.userIdQuery)
  }

  /** A malformed header does not hide a good query parameter. */
  lemma MalformedHeaderFallsBack(req: Request, id: Long)
    requires req.userIdHeader == Some("abc") && req.userIdQuery == Some(LongAsString.ToDecimal(id))
    ensures UserId(req) == Some(id)
  {
    LongAsString.RoundTrip(id);
  }

  /** `getClient`: the registered client, or a new one registered under the
      user id. */
  function GetClient(clients: map<Long, Client>, userId: Long, name: Option<string>): (r: (map<Long, Client>, Client))
    ensures userId in r.0 && r.0[userId] == r.1 && r.1.userId == (if userId in clients then clients[userId].userId else userId)
    ensures userId in clients ==> r == (clients, clients[userId])
    ensures userId !in clients ==> r.0 == clients[userId := r.1] && r.1 == Client(userId, name, None)
  {
    if userId in clients then (clients, clients[userId])
    else var c := Client(userId, name, None); (clients[userId := c], c)
  }

  /** Asking again, under any name, hands back the same client. */
  lemma GetClientIdempotent(clients: map<Long, Client>, userId: Long, name: Option<string>, other: Option<string>)
    ensures var (once, c) := GetClient(clients, userId, name);
            GetClient(once, userId, other) == (once, c)
  {
  }

  /** The call intercept installed on the routing itself. Every route below
      the routing merges its ancestors' interceptors into its own pipeline,
      so it runs for the REST routes and the "/magma" upgrade alike. Only a
      missing client name is refused (a blank one passes), and only when
      names are required; the refusal answers the call and ends it. */
  function CallIntercept(config: ServerConfig.Config, req: Request): (r: Option<int>)
    ensures r.Some? <==> config.requireClientName && ClientName(req).None?
    ensures r.Some? ==> r.value == BAD_REQUEST
  {
    if ClientName(req).None? && config.requireClientName then Some(BAD_REQUEST) else None
  }

  predicate NameRefused(config: ServerConfig.Config, req: Request)
  {
    config.requireClientName && IsNullOrBlank(ClientName(req))
  }

  predicate AuthRefused(config: ServerConfig.Config, req: Request)
  {
    !ServerConfig.ValidateAuth(config.auth, AuthorizationPipeline.Credential(req.authorization, req.authQuery))
  }

  /** The body of the "/magma" websocket handler. The client is looked up
      (and created) before an open session is found, so a duplicate still
      registers; a handled connection installs a fresh handler as the
      client's session (`handleWebsocket`). On its own it closes a missing
      name with 4002; on the route, `CallIntercept` answers such a call
      first (see `Route`). */
  function Admit(config: ServerConfig.Config, clients: map<Long, Client>, req: Request): (r: (map<Long, Client>, Outcome))
    ensures r.1 == Closed(MISSING_CLIENT_NAME) <==> NameRefused(config, req)
    ensures r.1 == Closed(INVALID_AUTHORIZATION) <==> !NameRefused(config, req) && AuthRefused(config, req)
    ensures r.1 == Closed(MISSING_USER_ID) <==>
              !NameRefused(config, req) && !AuthRefused(config, req) && UserId(req).None?
    ensures r.1 in {Closed(MISSING_CLIENT_NAME), Closed(INVALID_AUTHORIZATION), Closed(MISSING_USER_ID)} ==> r.0 == clients
    ensures r.1 !in {Closed(MISSING_CLIENT_NAME), Closed(INVALID_AUTHORIZATION), Closed(MISSING_USER_ID)} ==>
              UserId(req).Some? && var id := UserId(req).value;
              var (registered, client) := GetClient(clients, id, ClientName(req));
              (r.1 == Handled ==> r.0 == registered[id := client.(websocket := Some(FreshHandler))]) &&
              (r.1 != Handled ==> r.0 == registered) &&
              (r.1 == Handled <==> id !in clients || clients[id].websocket.None?) &&
              (r.1 == Resumed <==>
                 id in clients && clients[id].websocket.Some? &&
                 req.resumeKey.Some? && clients[id].websocket.value.resumeKey == req.resumeKey) &&
              (r.1 == Closed(DUPLICATE_SESSION) <==>
                 id in clients && clients[id].websocket.Some? &&
                 !(req.resumeKey.Some? && clients[id].websocket.value.resumeKey == req.resumeKey))
  {
    var name := ClientName(req);
    if config.requireClientName && IsNullOrBlank(name) then (clients, Closed(MISSING_CLIENT_NAME))
    else if !ServerConfig.ValidateAuth(config.auth, AuthorizationPipeline.Credential(req.authorization, req.authQuery)) then
      (clients, Closed(INVALID_AUTHORIZATION))
    else match UserId(req)
      case None => (clients, Closed(MISSING_USER_ID))
      case Some(id) =>
        var (registered, client) := GetClient(clients, id, name);
        match client.websocket
        case None => (registered[id := client.(websocket := Some(FreshHandler))], Handled)
        case Some(wsh) =>
          if req.resumeKey.Some? && wsh.resumeKey == req.resumeKey then (registered, Resumed)
          else (registered, Closed(DUPLICATE_SESSION))
  }

  /** What an upgrade request to "/magma" gets: an HTTP status from the
      call intercept, or the websocket handler's outcome. */
  datatype Answer = Refused(status: int) | Upgraded(outcome: Outcome)

  /** The "/magma" route as a whole: the call intercept, then the handler.
      A missing name is a 400 and never a close; 4002 is left for a name
      that is present but blank. */
  function Route(config: ServerConfig.Config, clients: map<Long, Client>, req: Request): (r: (map<Long, Client>, Answer))
    ensures r.1 == Refused(BAD_REQUEST) <==> config.requireClientName && ClientName(req).None?
    ensures r.1.Refused? ==> r == (clients, Refused(BAD_REQUEST))
    ensures r.1 == Upgraded(Closed(MISSING_CLIENT_NAME)) <==>
              config.requireClientName && ClientName(req).Some? && IsNullOrBlank(ClientName(req))
    ensures r.1.Upgraded? ==> r.0 == Admit(config, clients, req).0 && r.1.outcome == Admit(config, clients, req).1
  {
    match CallIntercept(config, req)
    case Some(status) => (clients, Refused(status))
    case None =>
      var (registry, outcome) := Admit(config, clients, req);
      (registry, Upgraded(outcome))
  }

  /** Without any client name, where names are required, the handler alone
      would close with 4002, but the route answers 400 and leaves the
      registry alone. */
  lemma MissingNameIsBadRequest(config: ServerConfig.Config, clients: map<Long, Client>, req: Request)
    requires config.requireClientName && req.clientNameHeader.None? && req.clientNameQuery.None?
    ensures Admit(config, clients, req).1 == Closed(MISSING_CLIENT_NAME)
    ensures Route(config, clients, req) == (clients, Refused(BAD_REQUEST))
  {
  }

  /** Once a connection is handled, the next one for the same user id is a
      duplicate, whatever resume key it brings: the new handler has none. */
  lemma SecondConnectionIsDuplicate(config: ServerConfig.Config, clients: map<Long, Client>,
                                    first: Request, second: Request)
    requires Admit(config, clients, first).1 == Handled
    requires !NameRefused(config, second) && !AuthRefused(config, second)
    requires UserId(second) == UserId(first)
    ensures Admit(config, Admit(config, clients, first).0, second).1 == Closed(DUPLICATE_SESSION)
  {
  }

  /** The websocket refuses for exactly the credentials the REST
      authentication challenges. */
  lemma AdmissionAgreesWithRestAuth(config: ServerConfig.Config, clients: map<Long, Client>, req: Request)
    requires !NameRefused(config, req)
    ensures Admit(config, clients, req).1 == Closed(INVALID_AUTHORIZATION) <==>
            AuthorizationPipeline.Intercept(config.auth, req.authorization, req.authQuery).Some?
  {
  }

  /** A blank client name gets past the call intercept but not the
      websocket handler. */
  lemma BlankNameOnlyRefusedByWebsocket(config: ServerConfig.Config, clients: map<Long, Client>, req: Request)
    requires config.requireClientName && req.clientNameHeader == Some(" ")
    ensures CallIntercept(config, req).None?
    ensures Admit(config, clients, req).1 == Closed(MISSING_CLIENT_NAME)
    ensures Route(config, clients, req) == (clients, Upgraded(Closed(MISSING_CLIENT_NAME)))
  {
  }
}

/** `obsidian.server.io.websocket.ObsidianWs`: the legacy session admission. */
module ObsidianWs {
  import opened Wrappers
  import opened KotlinInt
  import LongAsString

  /** Close codes of `ObsidianCloseReasons`. */
  const INVALID_AUTHORIZATION: int := 4001
  const NO_USER_ID: int := 4002

  /** A client and the session it was created for. */
  datatype Client = Client(userId: Long, session: nat)

  datatype Outcome = Closed(code: int) | Registered(userId: Long)

  /** `handleSession`: the authorization header must be present and differ
      from the literal "password"; the User-Id header must be present and
      a number (`toLong` throws otherwise); a known client is kept. */
  function HandleSession(clients: map<Long, Client>, session: nat, authorization: Option<string>,
                         userId: Option<string>): (r: (map<Long, Client>, Result<Outcome, Failure>))
    ensures r.1 == Ok(Closed(INVALID_AUTHORIZATION)) <==> authorization.None? || authorization == Some("password")
    ensures r.1 == Ok(Closed(NO_USER_ID)) <==> authorization.Some? && authorization != Some("password") && userId.None?
    ensures r.1.Err? <==> authorization.Some? && authorization != Some("password") &&
                          userId.Some? && LongAsString.ParseLong(userId.value).Err?
    ensures r.1.Err? ==> r.1.error == NumberFormat
    ensures !(r.1.Ok? && r.1.value.Registered?) ==> r.0 == clients
    ensures r.1.Ok? && r.1.value.Registered? ==>
              var id := r.1.value.userId;
              userId.Some? && LongAsString.ParseLong(userId.value) == Ok(id) &&
              r.0 == (if id in clients then clients else clients[id := Client(id, session)])
  {
    if authorization.None? || authorization.value == "password" then (clients, Ok(Closed(INVALID_AUTHORIZATION)))
    else if userId.None? then (clients, Ok(Closed(NO_USER_ID)))
    else match LongAsString.ParseLong(userId.value)
      case Err(e) => (clients, Err(e))
      case Ok(id) =>
        if id in clients then (clients, Ok(Registered(id)))
        else (clients[id := Client(id, session)], Ok(Registered(id)))
  }

  /** A reconnecting client keeps the session it was first registered with. */
  lemma ExistingClientKept(clients: map<Long, Client>, session: nat, userId: Long)
    requires userId in clients
    ensures HandleSession(clients, session, Some("token"), Some(LongAsString.ToDecimal(userId))) ==
            (clients, Ok(Registered(userId)))
  {
    LongAsString.RoundTrip(userId);
  }
}
