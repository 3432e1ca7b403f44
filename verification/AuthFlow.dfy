/**
 From the client's cookie jar to the session table and back: `run_auth_extraction`, the role check
 of `from_request_parts`, the `CookieSlot` and the `attach_refreshed_cookie` layer.
 */
module AuthFlow {
  import opened Common
  import opened Cookies
  import opened Sessions
  import opened TokenHeaders

  const IDLE_MINUTES := 10

  datatype Claims = Claims(uniqueId: Uuid, timeExpire: int)

  /** The JWT encoder and decoder under the server's secret key. */
  datatype Codec = Codec(encode: Claims -> string, decode: string -> Option<Claims>)

  /** `tokenExpireMins` is None when TOKEN_EXPIRE_MINS is missing or is not an integer. */
  datatype Config = Config(codec: Codec, tokenExpireMins: Option<int>)

  datatype Error = Unauthorized | Forbidden | Unknown

  datatype RefreshMode = Auto | Never

  datatype Response = Response(status: nat, setCookie: Option<string>)

  datatype Extraction = Extraction(session: Row, uniqueId: Uuid, timeExpire: int, oldId: Option<Uuid>)

  type RoleCheck = string -> bool

  function Status(e: Error): nat {
    match e
    case Unauthorized => 401
    case Forbidden => 403
    case Unknown => 500
  }

  /** `HeaderValue::from_str`: visible ASCII, space and tab. */
  predicate HeaderSafe(s: string) {
    forall c <- s :: c == '\t' || 32 <= c as int < 127
  }

  // ---- What one request does ----

  datatype Outcome = Outcome(db: Db, cookie: Option<string>, result: Result<Extraction, Error>)

  ghost function Extract(config: Config, db: Db, req: Request, mode: RefreshMode): Outcome {
    match Locate(req)
    case Err(_) => Outcome(db, None, Err(Unauthorized))
    case Ok(token) =>
      match config.codec.decode(token)
      case None => Outcome(db, None, Err(Unauthorized))
      case Some(claims) =>
        if mode == Auto then ExtractAuto(config, db, claims) else Outcome(db, None, ExtractNever(db, claims))
  }

  ghost function ExtractNever(db: Db, claims: Claims): Result<Extraction, Error> {
    if db.now > claims.timeExpire then Err(Forbidden)
    else match Lookup(db, claims.uniqueId)
      case None => Err(Unauthorized)
      case Some(session) => Ok(Extraction(session, claims.uniqueId, claims.timeExpire, None))
  }

  ghost function ExtractAuto(config: Config, db: Db, claims: Claims): Outcome {
    var db' := AfterPing(db, IDLE_MINUTES, claims.uniqueId);
    match PingAnswer(db, IDLE_MINUTES, claims.uniqueId)
    case None => Outcome(db', None, Err(Unauthorized))
    case Some(session) =>
      if session.id == claims.uniqueId then
        Outcome(db', None, Ok(Extraction(session, claims.uniqueId, claims.timeExpire, None)))
      else match config.tokenExpireMins
        case None => Outcome(db', None, Err(Unknown))
        case Some(mins) =>
          var renewed := Claims(session.id, db.now + mins * MINUTE);
          Outcome(db', Some(YieldCookieString(config.codec.encode(renewed))),
                  Ok(Extraction(session, renewed.uniqueId, renewed.timeExpire, Some(claims.uniqueId))))
  }

  /** The response that leaves the layer; a refreshed cookie replaces the handler's own. */
  ghost function Respond(outcome: Outcome, check: RoleCheck, handler: Response): Response {
    var plain := match outcome.result
      case Err(e) => Response(Status(e), None)
      case Ok(raw) => if check(raw.session.role) then handler else Response(Status(Unauthorized), None);
    if outcome.cookie.Some? && HeaderSafe(outcome.cookie.value) then plain.(setCookie := outcome.cookie) else plain
  }

  // ---- What comes of a request ----

  /** Without a token to be found, in either mode, the request is unauthorized and nothing is touched. */
  lemma NoTokenIsUnauthorized(config: Config, db: Db, req: Request, mode: RefreshMode)
    requires forall token :: !Presents(req, token)
    ensures Extract(config, db, req, mode) == Outcome(db, None, Err(Unauthorized))
  {
    if Locate(req).Ok? { LocateFindsIff(req, Locate(req).value); }
  }

  /** Wherever a token is found, the outcome is the same. */
  lemma PlaceDoesNotMatter(config: Config, db: Db, req: Request, other: Request, token: string, mode: RefreshMode)
    requires Presents(req, token) && Presents(other, token)
    ensures Extract(config, db, req, mode) == Extract(config, db, other, mode)
  {
    LocateFindsIff(req, token);
    LocateFindsIff(other, token);
  }

  /** The four verdicts of Never mode, which only reads. */
  lemma NeverModeVerdict(config: Config, db: Db, req: Request, token: string)
    requires Presents(req, token)
    ensures var outcome, decoded := Extract(config, db, req, Never), config.codec.decode(token);
            && outcome.db == db && outcome.cookie == None
            && (outcome.result == Err(Forbidden) <==> decoded.Some? && decoded.value.timeExpire < db.now)
            && (outcome.result.Ok? <==>
                  && decoded.Some? && db.now <= decoded.value.timeExpire
                  && exists k <- db.rows :: db.rows[k].id == decoded.value.uniqueId)
            && (outcome.result.Err? && outcome.result != Err(Forbidden) ==> outcome.result == Err(Unauthorized))
            && (outcome.result.Ok? ==>
                  var e := outcome.result.value;
                  && e.uniqueId == decoded.value.uniqueId && e.timeExpire == decoded.value.timeExpire && e.oldId == None
                  && exists k <- db.rows :: db.rows[k] == e.session && db.rows[k].id == e.uniqueId)
  {
    LocateFindsIff(req, token);
  }

  /** The verdicts of Auto mode: what the ping with the token's id, and a limit of ten minutes, comes to. */
  lemma AutoModeVerdict(config: Config, db: Db, req: Request, token: string)
    requires Presents(req, token)
    ensures var outcome, decoded := Extract(config, db, req, Auto), config.codec.decode(token);
            match decoded
            case None => outcome == Outcome(db, None, Err(Unauthorized))
            case Some(claims) =>
              && outcome.db == AfterPing(db, 10, claims.uniqueId)
              && match PingAnswer(db, 10, claims.uniqueId)
                 case None => outcome.cookie == None && outcome.result == Err(Unauthorized)
                 case Some(session) =>
                   if session.id == claims.uniqueId then
                     outcome.cookie == None
                     && outcome.result == Ok(Extraction(session, claims.uniqueId, claims.timeExpire, None))
                   else if config.tokenExpireMins == None then
                     outcome.cookie == None && outcome.result == Err(Unknown)
                   else
                     var expire := db.now + config.tokenExpireMins.value * 60_000_000;
                     && outcome.cookie == Some(YieldCookieString(config.codec.encode(Claims(session.id, expire))))
                     && outcome.result == Ok(Extraction(session, session.id, expire, Some(claims.uniqueId)))
  {
    LocateFindsIff(req, token);
  }

  /**
   Never mode accepts exactly a token that decodes, has not expired and names the current id of a row;
   to anything else it answers 403 if the token has expired and 401 if not.
   */
  lemma NeverModeAcceptsIff(config: Config, db: Db, req: Request, check: RoleCheck, handler: Response)
    ensures var outcome := Extract(config, db, req, Never);
            && outcome.db == db && outcome.cookie == None
            && (outcome.result.Ok? <==>
                  exists token: string ::
                    && Presents(req, token) && config.codec.decode(token).Some?
                    && db.now <= config.codec.decode(token).value.timeExpire
                    && exists k <- db.rows :: db.rows[k].id == config.codec.decode(token).value.uniqueId)
            && (outcome.result.Err? ==>
                  Respond(outcome, check, handler)
                  == if exists token: string ::
                       && Presents(req, token) && config.codec.decode(token).Some?
                       && config.codec.decode(token).value.timeExpire < db.now
                     then Response(403, None) else Response(401, None))
  {
    if token: string :| Presents(req, token) {
      NeverModeVerdict(config, db, req, token);
      forall other | Presents(req, other)
        ensures other == token
      {
        LocateFindsIff(req, token);
        LocateFindsIff(req, other);
      }
    } else {
      NoTokenIsUnauthorized(config, db, req, Never);
    }
  }

  /** The statuses of the refusals, the role check's say over the handler, and what becomes of a cookie. */
  lemma ResponseSays(outcome: Outcome, check: RoleCheck, handler: Response)
    ensures var response := Respond(outcome, check, handler);
            && (outcome.result.Ok? && check(outcome.result.value.session.role) ==> response.status == handler.status)
            && (outcome.result.Ok? && !check(outcome.result.value.session.role) ==> response.status == 401)
            && (outcome.result == Err(Unauthorized) ==> response.status == 401)
            && (outcome.result == Err(Forbidden) ==> response.status == 403)
            && (outcome.result == Err(Unknown) ==> response.status == 500)
            && (if outcome.cookie.Some? && (forall c <- outcome.cookie.value :: c == '\t' || ' ' <= c <= '~') then
                  response.setCookie == outcome.cookie
                else if outcome.result.Ok? && check(outcome.result.value.session.role) then response == handler
                else response.setCookie == None)
  {
  }

  /** The grace for a rotated id is Auto's alone: Never refuses it from the moment of the rotation. */
  lemma GraceIsForAutoOnly(config: Config, db: Db, req: Request, token: string, minutes: int, x: Uuid, expire: int,
                           later: seq<Event>)
    requires Inv(db) && Rotates(db, minutes, x)
    requires Presents(req, token) && config.codec.decode(token) == Some(Claims(x, expire))
    ensures Extract(config, Run(AfterPing(db, minutes, x), later), req, Never).result.Err?
    ensures Extract(config, AfterPing(db, minutes, x), req, Auto).db
            == AfterPing(AfterPing(db, minutes, x), IDLE_MINUTES, x)
    ensures config.tokenExpireMins.Some? ==> Extract(config, AfterPing(db, minutes, x), req, Auto).result.Ok?
  {
    var db1 := AfterPing(db, minutes, x);
    NoRowHasRotatedId(db, minutes, x, later);
    NeverModeVerdict(config, Run(db1, later), req, token);
    RotatedIdAnswers(db, minutes, x);
    AutoModeVerdict(config, db1, req, token);
  }

  lemma NoRowHasRotatedId(db: Db, minutes: int, x: Uuid, later: seq<Event>)
    requires Inv(db) && Rotates(db, minutes, x)
    ensures var end := Run(AfterPing(db, minutes, x), later);
            forall j <- end.rows :: end.rows[j].id != x
  {
    var db1 := AfterPing(db, minutes, x);
    var y := PingAnswer(db, minutes, x).value.id;
    var k := Holder(db, x);
    ApplyKeepsInv(db, Ping(minutes, x));
    assert Apply(db, Ping(minutes, x)) == db1;
    HolderIsSole(db1, k, x);
    assert Echo(db1, k, x, y, db.now) by { assert Sole(db1, k, x); }
    EchoOverRuns(db1, later, k, x, y, db.now);
    var end := Run(db1, later);
    assert forall j <- end.rows :: end.rows[j].id == x ==> Matches(end.rows[j], x);
  }

  lemma RotatedIdAnswers(db: Db, minutes: int, x: Uuid)
    requires Inv(db) && Rotates(db, minutes, x)
    ensures PingAnswer(AfterPing(db, minutes, x), IDLE_MINUTES, x).Some?
  {
    var db1, k := AfterPing(db, minutes, x), Holder(db, x);
    ApplyKeepsInv(db, Ping(minutes, x));
    assert Apply(db, Ping(minutes, x)) == db1;
    HolderIsSole(db1, k, x);
  }

  // ---- The implementation ----

  class CookieSlot {
    var cookie: Option<string>

    constructor ()
      ensures cookie == None
    {
      cookie := None;
    }

    method Set(value: string)
      modifies this
      ensures cookie == Some(value)
    {
      cookie := Some(value);
    }

    method Take() returns (taken: Option<string>)
      modifies this
      ensures taken == old(cookie) && cookie == None
    {
      taken, cookie := cookie, None;
    }
  }

  class AuthServer {
    const table: AuthTable
    const config: Config

    constructor (table: AuthTable, config: Config)
      ensures this.table == table && this.config == config
    {
      this.table, this.config := table, config;
    }

    method RunAuthExtraction(req: Request, mode: RefreshMode, slot: CookieSlot?)
      returns (result: Result<Extraction, Error>)
      requires Inv(table.Snapshot())
      modifies table, slot
      ensures Inv(table.Snapshot())
      ensures var outcome := Extract(config, old(table.Snapshot()), req, mode);
              && table.Snapshot() == outcome.db
              && result == outcome.result
              && (slot != null ==> slot.cookie == if outcome.cookie.Some? then outcome.cookie else old(slot.cookie))
    {
      var rawToken := Locate(req);
      if rawToken.Err? {
        return Err(Unauthorized);
      }
      var decoded := config.codec.decode(rawToken.value);
      if decoded == None {
        return Err(Unauthorized);
      }
      var claims := decoded.value;
      var existingId := claims.uniqueId;

      if mode == Never {
        if table.now > claims.timeExpire {
          return Err(Forbidden);
        }
        var session := table.GetAuthSession(claims.uniqueId);
        if session == None {
          return Err(Unauthorized);
        }
        return Ok(Extraction(session.value, claims.uniqueId, claims.timeExpire, None));
      }

      var session := table.Ping(IDLE_MINUTES, claims.uniqueId);
      if session == None {
        return Err(Unauthorized);
      }
      if session.value.id != existingId {
        if config.tokenExpireMins == None {
          return Err(Unknown);
        }
        var renewed := Claims(session.value.id, table.now + config.tokenExpireMins.value * MINUTE);
        var jwt := config.codec.encode(renewed);
        if slot != null {
          slot.Set(YieldCookieString(jwt));
        }
        return Ok(Extraction(session.value, renewed.uniqueId, renewed.timeExpire, Some(existingId)));
      }
      return Ok(Extraction(session.value, claims.uniqueId, claims.timeExpire, None));
    }

    /** `HeaderToken::from_request_parts`: the role is checked after the ping has run. */
    method FromRequestParts(req: Request, mode: RefreshMode, check: RoleCheck, slot: CookieSlot?)
      returns (result: Result<Extraction, Error>)
      requires Inv(table.Snapshot())
      modifies table, slot
      ensures Inv(table.Snapshot())
      ensures var outcome := Extract(config, old(table.Snapshot()), req, mode);
              && table.Snapshot() == outcome.db
              && result == (if outcome.result.Ok? && !check(outcome.result.value.session.role)
                            then Err(Unauthorized) else outcome.result)
              && (slot != null ==> slot.cookie == if outcome.cookie.Some? then outcome.cookie else old(slot.cookie))
    {
      var raw := RunAuthExtraction(req, mode, slot);
      if raw.Err? {
        return raw;
      }
      if !check(raw.value.session.role) {
        return Err(Unauthorized);
      }
      return raw;
    }

    /** `attach_refreshed_cookie` around an extractor and a handler that would answer `handler`. */
    method AttachRefreshedCookie(req: Request, mode: RefreshMode, check: RoleCheck, handler: Response)
      returns (response: Response)
      requires Inv(table.Snapshot())
      modifies table
      ensures Inv(table.Snapshot())
      ensures var outcome := Extract(config, old(table.Snapshot()), req, mode);
              table.Snapshot() == outcome.db && response == Respond(outcome, check, handler)
    {
      var slot := new CookieSlot();
      var result := FromRequestParts(req, mode, check, slot);
      response := match result
        case Err(e) => Response(Status(e), None)
        case Ok(_) => handler;
      var cookie := slot.Take();
      if cookie.Some? && HeaderSafe(cookie.value) {
        response := response.(setCookie := cookie);
      }
    }
  }

  // ---- A client with a cookie jar ----

  /** Decoding undoes encoding, and a token survives the trip through a cookie header. */
  ghost predicate Faithful(codec: Codec) {
    forall claims :: codec.decode(codec.encode(claims)) == Some(claims) && CookieSafe(codec.encode(claims))
  }

  predicate CookieSafe(token: string) {
    ';' !in token && Trimmed(token) && HeaderSafe(token)
  }

  /** The cookies a client keeps for the server; it sends them all, oldest first. */
  type Jar = seq<Pair>

  /** What a user agent takes from a `Set-Cookie` value (section 5.2 of RFC 6265); None if it takes nothing. */
  function SetCookiePair(setCookie: string): Option<Pair> {
    match SplitOnce(NameValuePart(setCookie), '=')
    case None => None
    case Some((name, value)) => if Trim(name) == "" then None else Some((Trim(name), Trim(value)))
  }

  /** A stored cookie takes the place of the one with its name, or comes last (section 5.3 of RFC 6265). */
  function Store(jar: Jar, p: Pair): Jar {
    if jar == [] then [p]
    else if jar[0].0 == p.0 then [p] + jar[1..]
    else [jar[0]] + Store(jar[1..], p)
  }

  function JarAfter(jar: Jar, response: Response): Jar {
    var p := if response.setCookie.Some? then SetCookiePair(response.setCookie.value) else None;
    if p.Some? then Store(jar, p.value) else jar
  }

  /** Among whatever other cookies, the token for the claims. */
  ghost predicate HoldsToken(codec: Codec, jar: Jar, claims: Claims) {
    && (forall p <- jar :: WellFormed(p))
    && FirstValue(jar, AUTH_TOKEN_COOKIE_KEY) == Some(codec.encode(claims))
  }

  ghost predicate JarHolds(codec: Codec, jar: Jar, id: Uuid) {
    exists expire :: HoldsToken(codec, jar, Claims(id, expire))
  }

  /** A handler, as the login and logout endpoints are, that writes the token cookie itself. */
  predicate SetsToken(handler: Response) {
    && handler.setCookie.Some?
    && var p := SetCookiePair(handler.setCookie.value); p.Some? && p.value.0 == AUTH_TOKEN_COOKIE_KEY
  }

  function WithCookies(jar: Jar): Request {
    Request(Text(CookieString(jar)), Absent, Absent, Absent)
  }

  /** One Auto request of the client, through the layer, to a handler that would answer `handler`. */
  ghost function Ask(config: Config, db: Db, jar: Jar, check: RoleCheck, handler: Response)
    : (answer: (Db, Response, Jar))
  {
    var outcome := Extract(config, db, WithCookies(jar), Auto);
    var response := Respond(outcome, check, handler);
    (outcome.db, response, JarAfter(jar, response))
  }

  lemma JarIsRead(config: Config, jar: Jar, claims: Claims)
    requires Faithful(config.codec) && HoldsToken(config.codec, jar, claims)
    ensures Locate(WithCookies(jar)) == Ok(config.codec.encode(claims))
    ensures config.codec.decode(config.codec.encode(claims)) == Some(claims)
  {
    ParserInvertsCookieString(jar, AUTH_TOKEN_COOKIE_KEY);
  }

  lemma {:induction false} StoredIsFound(jar: Jar, p: Pair, target: string)
    ensures FirstValue(Store(jar, p), target) == if p.0 == target then Some(p.1) else FirstValue(jar, target)
    ensures forall q <- Store(jar, p) :: q == p || q in jar
    decreases jar
  {
    if jar != [] && jar[0].0 != p.0 {
      StoredIsFound(jar[1..], p, target);
    }
  }

  /** Whatever a server sends, what is stored can be sent back and read. */
  lemma TakenPairIsWellFormed(setCookie: string)
    requires SetCookiePair(setCookie).Some?
    ensures WellFormed(SetCookiePair(setCookie).value)
  {
    BeforeIsPrefix(setCookie, ';');
    SplitOnceCuts(NameValuePart(setCookie), '=');
    var (name, value) := SplitOnce(NameValuePart(setCookie), '=').value;
    TrimFixpoint(name);
    TrimFixpoint(value);
    TrimTakesNothingElse(name);
    TrimTakesNothingElse(value);
  }

  lemma {:induction false} SplitOnceCuts(s: string, sep: char)
    requires SplitOnce(s, sep).Some?
    ensures var (a, b) := SplitOnce(s, sep).value;
            sep !in a && (forall c <- a :: c in s) && (forall c <- b :: c in s)
  {
    if s[0] != sep {
      SplitOnceCuts(s[1..], sep);
    }
  }

  lemma TrimTakesNothingElse(s: string)
    ensures forall c <- Trim(s) :: c in s
  {
    TrimStartDrops(s);
    TrimEndDrops(TrimStart(s));
  }

  lemma StoreKeepsReadable(jar: Jar, p: Pair)
    requires WellFormed(p) && forall q <- jar :: WellFormed(q)
    ensures forall q <- Store(jar, p) :: WellFormed(q)
  {
    StoredIsFound(jar, p, p.0);
  }

  /** A handler's own cookie is stored beside the token. */
  lemma OwnCookieStaysApart(jar: Jar, response: Response)
    requires !SetsToken(response)
    ensures FirstValue(JarAfter(jar, response), AUTH_TOKEN_COOKIE_KEY) == FirstValue(jar, AUTH_TOKEN_COOKIE_KEY)
    ensures (forall p <- jar :: WellFormed(p)) ==> forall p <- JarAfter(jar, response) :: WellFormed(p)
  {
    if response.setCookie.Some? && SetCookiePair(response.setCookie.value).Some? {
      var p := SetCookiePair(response.setCookie.value).value;
      TakenPairIsWellFormed(response.setCookie.value);
      StoredIsFound(jar, p, AUTH_TOKEN_COOKIE_KEY);
    }
  }

  /** An issued cookie is a legal header, and takes the place of the token the jar held. */
  lemma IssuedCookieIsStored(codec: Codec, claims: Claims, jar: Jar, response: Response)
    requires Faithful(codec) && forall q <- jar :: WellFormed(q)
    ensures HeaderSafe(YieldCookieString(codec.encode(claims)))
    ensures response.setCookie == Some(YieldCookieString(codec.encode(claims))) ==>
              HoldsToken(codec, JarAfter(jar, response), claims)
  {
    var token := codec.encode(claims);
    var p := (AUTH_TOKEN_COOKIE_KEY, token);
    IssuedCookieIsTaken(codec, claims);
    IssuedCookieIsSafe(codec, claims);
    assert CookieSafe(token);
    TakenPairIsWellFormed(YieldCookieString(token));
    StoredIsFound(jar, p, AUTH_TOKEN_COOKIE_KEY);
    StoreKeepsReadable(jar, p);
  }

  lemma IssuedCookieIsTaken(codec: Codec, claims: Claims)
    requires Faithful(codec)
    ensures SetCookiePair(YieldCookieString(codec.encode(claims)))
            == Some((AUTH_TOKEN_COOKIE_KEY, codec.encode(claims)))
  {
    var token := codec.encode(claims);
    assert CookieSafe(token);
    var head := AUTH_TOKEN_COOKIE_KEY + "=" + token;
    assert YieldCookieString(token) == head + ATTRIBUTES;
    BeforeSplits(head, ATTRIBUTES, ';');
    SplitOnceAt(AUTH_TOKEN_COOKIE_KEY, token, '=');
    TrimFixpoint(AUTH_TOKEN_COOKIE_KEY);
    TrimFixpoint(token);
  }

  lemma IssuedCookieIsSafe(codec: Codec, claims: Claims)
    requires Faithful(codec)
    ensures HeaderSafe(YieldCookieString(codec.encode(claims)))
  {
    var token := codec.encode(claims);
    assert CookieSafe(token);
    AsciiText();
    forall c <- YieldCookieString(token)
      ensures c == '\t' || 32 <= c as int < 127
    {
      assert c in AUTH_TOKEN_COOKIE_KEY + "=" || c in token || c in ATTRIBUTES;
    }
  }

  lemma AsciiText()
    ensures HeaderSafe(AUTH_TOKEN_COOKIE_KEY + "=") && HeaderSafe(ATTRIBUTES)
  {
  }

  lemma AskPings(config: Config, db: Db, jar: Jar, check: RoleCheck, handler: Response, claims: Claims)
    requires Faithful(config.codec) && HoldsToken(config.codec, jar, claims)
    ensures var outcome := ExtractAuto(config, db, claims);
            Ask(config, db, jar, check, handler)
            == (outcome.db, Respond(outcome, check, handler), JarAfter(jar, Respond(outcome, check, handler)))
  {
    JarIsRead(config, jar, claims);
  }

  /** Without a refreshed cookie the response carries the handler's own or none. */
  lemma UnrenewedResponse(outcome: Outcome, check: RoleCheck, handler: Response)
    requires outcome.cookie == None
    ensures var response := Respond(outcome, check, handler);
            response == handler || response.setCookie == None
  {
  }

  lemma KeptIdStaysInJar(config: Config, db: Db, jar: Jar, check: RoleCheck, handler: Response, claims: Claims)
    requires HoldsToken(config.codec, jar, claims) && !SetsToken(handler)
    requires ExtractAuto(config, db, claims).cookie == None
    ensures HoldsToken(config.codec, JarAfter(jar, Respond(ExtractAuto(config, db, claims), check, handler)), claims)
  {
    UnrenewedResponse(ExtractAuto(config, db, claims), check, handler);
    OwnCookieStaysApart(jar, Respond(ExtractAuto(config, db, claims), check, handler));
  }

  lemma RenewedIdReachesJar(config: Config, db: Db, jar: Jar, check: RoleCheck, handler: Response, claims: Claims,
                            session: Row)
    requires Faithful(config.codec) && HoldsToken(config.codec, jar, claims) && config.tokenExpireMins.Some?
    requires PingAnswer(db, IDLE_MINUTES, claims.uniqueId) == Some(session) && session.id != claims.uniqueId
    ensures var renewed := Claims(session.id, db.now + config.tokenExpireMins.value * MINUTE);
            HoldsToken(config.codec, JarAfter(jar, Respond(ExtractAuto(config, db, claims), check, handler)), renewed)
  {
    var outcome := ExtractAuto(config, db, claims);
    var renewed := Claims(session.id, db.now + config.tokenExpireMins.value * MINUTE);
    RenewedTokenIsIssued(config, db, claims, session);
    IssuedCookieIsStored(config.codec, renewed, jar, Respond(outcome, check, handler));
    RefreshedResponse(outcome, check, handler);
  }

  lemma RenewedTokenIsIssued(config: Config, db: Db, claims: Claims, session: Row)
    requires PingAnswer(db, IDLE_MINUTES, claims.uniqueId) == Some(session) && session.id != claims.uniqueId
    requires config.tokenExpireMins.Some?
    ensures var renewed := Claims(session.id, db.now + config.tokenExpireMins.value * MINUTE);
            ExtractAuto(config, db, claims).cookie == Some(YieldCookieString(config.codec.encode(renewed)))
  {
  }

  lemma RefreshedResponse(outcome: Outcome, check: RoleCheck, handler: Response)
    requires outcome.cookie.Some? && HeaderSafe(outcome.cookie.value)
    ensures Respond(outcome, check, handler).setCookie == outcome.cookie
  {
  }

  lemma RenewalReachesJar(config: Config, db: Db, jar: Jar, check: RoleCheck, handler: Response, claims: Claims,
                          session: Row)
    requires Faithful(config.codec) && HoldsToken(config.codec, jar, claims) && !SetsToken(handler)
    requires PingAnswer(db, IDLE_MINUTES, claims.uniqueId) == Some(session)
    ensures var response := Respond(ExtractAuto(config, db, claims), check, handler);
            JarHolds(config.codec, JarAfter(jar, response), session.id)
            <==> config.tokenExpireMins.Some? || session.id == claims.uniqueId
  {
    if session.id != claims.uniqueId && config.tokenExpireMins.Some? {
      RenewedIdReachesJar(config, db, jar, check, handler, claims, session);
    } else {
      KeptIdStaysInJar(config, db, jar, check, handler, claims);
      if session.id != claims.uniqueId {
        JarNamesOneId(config, JarAfter(jar, Respond(ExtractAuto(config, db, claims), check, handler)),
                      claims.uniqueId, session.id);
      }
    }
  }

  lemma RoleDecidesStatus(config: Config, db: Db, check: RoleCheck, handler: Response, claims: Claims, session: Row)
    requires PingAnswer(db, IDLE_MINUTES, claims.uniqueId) == Some(session) && config.tokenExpireMins.Some?
    ensures Respond(ExtractAuto(config, db, claims), check, handler).status
            == if check(session.role) then handler.status else 401
  {
  }

  /**
   One request of a client whose jar holds the current id of a row that is not idle: the row is
   found whatever the role check says, it is kept alive, no other row changes, and the jar follows
   the id exactly when a rotated token can be issued or the row is not old enough to rotate.
   */
  lemma RequestFollowsRotation(config: Config, db: Db, k: Slot, jar: Jar, check: RoleCheck, handler: Response)
    requires Faithful(config.codec) && Inv(db)
    requires k in db.rows && JarHolds(config.codec, jar, db.rows[k].id)
    requires !Idle(db.rows[k], IDLE_MINUTES, db.now) && !SetsToken(handler)
    ensures var (db', response, jar') := Ask(config, db, jar, check, handler);
            && Inv(db') && db'.now == db.now
            && k in db'.rows && db'.rows[k].lastInteracted == db.now && db'.rows[k].role == db.rows[k].role
            && db'.rows - {k} == db.rows - {k}
            && (JarHolds(config.codec, jar', db'.rows[k].id)
                <==> config.tokenExpireMins.Some? || db.rows[k].dateCreated >= db.now - ROTATE_AFTER)
            && (config.tokenExpireMins.Some? ==>
                  response.status == if check(db.rows[k].role) then handler.status else 401)
  {
    var id := db.rows[k].id;
    HolderIsSole(db, k, id);
    var expire :| HoldsToken(config.codec, jar, Claims(id, expire));
    AskPings(config, db, jar, check, handler, Claims(id, expire));
    PingKeepsRow(db, k);
    var session := AfterPing(db, IDLE_MINUTES, id).rows[k];
    RenewalReachesJar(config, db, jar, check, handler, Claims(id, expire), session);
    if config.tokenExpireMins.Some? { RoleDecidesStatus(config, db, check, handler, Claims(id, expire), session); }
  }

  /** A ping with the current id of a row that is not idle answers with that row. */
  lemma PingKeepsRow(db: Db, k: Slot)
    requires Inv(db) && k in db.rows && !Idle(db.rows[k], IDLE_MINUTES, db.now)
    ensures var id := db.rows[k].id;
            var db' := AfterPing(db, IDLE_MINUTES, id);
            && Inv(db') && db'.now == db.now
            && k in db'.rows && PingAnswer(db, IDLE_MINUTES, id) == Some(db'.rows[k])
            && db'.rows[k].lastInteracted == db.now && db'.rows[k].role == db.rows[k].role
            && db'.rows - {k} == db.rows - {k}
  {
    var id := db.rows[k].id;
    HolderIsSole(db, k, id);
    ApplyKeepsInv(db, Ping(IDLE_MINUTES, id));
    assert Apply(db, Ping(IDLE_MINUTES, id)) == AfterPing(db, IDLE_MINUTES, id);
  }

  lemma JarNamesOneId(config: Config, jar: Jar, id: Uuid, other: Uuid)
    requires Faithful(config.codec)
    requires JarHolds(config.codec, jar, id) && id != other
    ensures !JarHolds(config.codec, jar, other)
  {
    var e1 :| HoldsToken(config.codec, jar, Claims(id, e1));
    forall e2
      ensures !HoldsToken(config.codec, jar, Claims(other, e2))
    {
      if HoldsToken(config.codec, jar, Claims(other, e2)) {
        JarIsRead(config, jar, Claims(id, e1));
        JarIsRead(config, jar, Claims(other, e2));
      }
    }
  }

  // ---- Keep-alive over whole runs ----

  /** What happens between two requests, and the role check and handler the next request meets. */
  datatype Round = Round(others: seq<Event>, check: RoleCheck, handler: Response)

  /** An event of some other session: it neither presents this row's ids nor deletes the row. */
  predicate Foreign(e: Event, k: Slot, r: Row) {
    match e
    case Ping(_, p) => !Matches(r, p)
    case Delete(doomed) => k !in doomed
    case _ => true
  }

  function Elapsed(events: seq<Event>): nat {
    if events == [] then 0
    else (if events[0].Tick? then events[0].elapsed else 0) + Elapsed(events[1..])
  }

  /** Every gap is at most ten minutes, and what happens in it is foreign to the row as it then is. */
  ghost predicate Prompt(config: Config, db: Db, k: Slot, jar: Jar, rounds: seq<Round>)
    decreases rounds
  {
    rounds != [] && k in db.rows ==>
      && db.now - db.rows[k].lastInteracted + Elapsed(rounds[0].others) <= 600_000_000
      && (forall e <- rounds[0].others :: Foreign(e, k, db.rows[k]))
      && var (db', _, jar') := Ask(config, Run(db, rounds[0].others), jar, rounds[0].check, rounds[0].handler);
         Prompt(config, db', k, jar', rounds[1..])
  }

  /** The database, the jar and the statuses after the rounds. */
  ghost function Play(config: Config, db: Db, jar: Jar, rounds: seq<Round>): (Db, Jar, seq<nat>)
    decreases rounds
  {
    if rounds == [] then (db, jar, [])
    else
      var (db', response, jar') := Ask(config, Run(db, rounds[0].others), jar, rounds[0].check, rounds[0].handler);
      var (db'', jar'', statuses) := Play(config, db', jar', rounds[1..]);
      (db'', jar'', [response.status] + statuses)
  }

  lemma ForeignLeavesRow(db: Db, e: Event, k: Slot)
    requires Inv(db) && k in db.rows && Foreign(e, k, db.rows[k])
    ensures k in Apply(db, e).rows
    ensures Apply(db, e).rows[k] == db.rows[k].(meta := Apply(db, e).rows[k].meta)
    ensures Apply(db, e).now == db.now + if e.Tick? then e.elapsed else 0
  {
  }

  lemma {:induction false} OthersLeaveRow(db: Db, events: seq<Event>, k: Slot)
    requires Inv(db) && k in db.rows
    requires forall e <- events :: Foreign(e, k, db.rows[k])
    ensures var db' := Run(db, events);
            && Inv(db') && db'.now == db.now + Elapsed(events)
            && k in db'.rows && db'.rows[k] == db.rows[k].(meta := db'.rows[k].meta)
    decreases events
  {
    if events != [] {
      ApplyKeepsInv(db, events[0]);
      ForeignLeavesRow(db, events[0], k);
      forall e <- events[1..]
        ensures Foreign(e, k, Apply(db, events[0]).rows[k])
      {
        assert e in events && Foreign(e, k, db.rows[k]);
      }
      OthersLeaveRow(Apply(db, events[0]), events[1..], k);
    }
  }

  /**
   A client whose sequential Auto requests are at most ten minutes apart always finds its session:
   every answer is decided by the role check alone, and the jar holds the row's current id in the
   end, whatever other sessions do and even where the role check rejects.
   */
  lemma {:induction false} KeepAlive(config: Config, db: Db, k: Slot, jar: Jar, rounds: seq<Round>)
    requires Faithful(config.codec) && config.tokenExpireMins.Some? && Inv(db)
    requires k in db.rows && JarHolds(config.codec, jar, db.rows[k].id)
    requires Prompt(config, db, k, jar, rounds) && forall r <- rounds :: !SetsToken(r.handler)
    ensures var (db', jar', statuses) := Play(config, db, jar, rounds);
            && k in db'.rows && JarHolds(config.codec, jar', db'.rows[k].id)
            && |statuses| == |rounds|
            && forall i :: 0 <= i < |rounds| ==>
                 statuses[i] == if rounds[i].check(db.rows[k].role) then rounds[i].handler.status else 401
    decreases rounds
  {
    if rounds != [] {
      OthersLeaveRow(db, rounds[0].others, k);
      var mid := Run(db, rounds[0].others);
      RequestFollowsRotation(config, mid, k, jar, rounds[0].check, rounds[0].handler);
      var (db', response, jar') := Ask(config, mid, jar, rounds[0].check, rounds[0].handler);
      KeepAlive(config, db', k, jar', rounds[1..]);
    }
  }

  // ---- A rotation whose token is never issued ----

  lemma NoExpiryIssuesNothing(config: Config, db: Db, req: Request)
    requires config.tokenExpireMins == None
    ensures Extract(config, db, req, Auto).cookie == None
  {
  }

  /** Without a token expiry no answer renews the token: the only cookie it can carry is the handler's own. */
  lemma NoExpiryKeepsJar(config: Config, db: Db, jar: Jar, check: RoleCheck, handler: Response)
    requires config.tokenExpireMins == None
    ensures var (_, response, jar') := Ask(config, db, jar, check, handler);
            && (response == handler || (response.setCookie == None && jar' == jar))
            && (!SetsToken(handler) ==>
                  FirstValue(jar', AUTH_TOKEN_COOKIE_KEY) == FirstValue(jar, AUTH_TOKEN_COOKIE_KEY))
  {
    var req := WithCookies(jar);
    NoExpiryIssuesNothing(config, db, req);
    UnrenewedResponse(Extract(config, db, req, Auto), check, handler);
    if !SetsToken(handler) { OwnCookieStaysApart(jar, Respond(Extract(config, db, req, Auto), check, handler)); }
  }

  /** Once the grace for a rotated id is over, every request with it is refused and no jar changes. */
  lemma {:induction false} StaleJarIsRefused(config: Config, db: Db, k: Slot, claims: Claims, y: Uuid, t: int,
                                             jar: Jar, rounds: seq<Round>)
    requires Faithful(config.codec) && Inv(db) && HoldsToken(config.codec, jar, claims)
    requires Echo(db, k, claims.uniqueId, y, t) && db.now > t + GRACE
    ensures var (_, jar', statuses) := Play(config, db, jar, rounds);
            jar' == jar && |statuses| == |rounds| && forall i :: 0 <= i < |rounds| ==> statuses[i] == 401
    decreases rounds
  {
    if rounds != [] {
      var mid := Run(db, rounds[0].others);
      EchoOverRuns(db, rounds[0].others, k, claims.uniqueId, y, t);
      IdentityOverRuns(db, rounds[0].others);
      AskPings(config, mid, jar, rounds[0].check, rounds[0].handler, claims);
      var ping := Event.Ping(IDLE_MINUTES, claims.uniqueId);
      assert PingAnswer(mid, IDLE_MINUTES, claims.uniqueId) == None;
      ApplyKeepsInv(mid, ping);
      ApplyKeepsEcho(mid, ping, k, claims.uniqueId, y, t);
      assert Apply(mid, ping) == AfterPing(mid, IDLE_MINUTES, claims.uniqueId);
      StaleJarIsRefused(config, Apply(mid, ping), k, claims, y, t, jar, rounds[1..]);
    }
  }

  /**
   Without a token expiry the client never learns the id a rotation gave its session: the rotating
   request answers 500 and leaves the jar, and ten seconds on every later request gets 401, whatever
   else happens.
   */
  lemma RotationStrandsClient(config: Config, db: Db, k: Slot, jar: Jar, check: RoleCheck, handler: Response,
                              wait: seq<Event>, rounds: seq<Round>)
    requires Faithful(config.codec) && config.tokenExpireMins == None && Inv(db)
    requires k in db.rows && JarHolds(config.codec, jar, db.rows[k].id)
    requires !Idle(db.rows[k], IDLE_MINUTES, db.now) && db.rows[k].dateCreated < db.now - ROTATE_AFTER
    ensures var (db', response, jar') := Ask(config, db, jar, check, handler);
            && response == Response(500, None) && jar' == jar
            && (Run(db', wait).now > db.now + GRACE ==>
                  var (_, jar'', statuses) := Play(config, Run(db', wait), jar, rounds);
                  jar'' == jar && |statuses| == |rounds| && forall i :: 0 <= i < |rounds| ==> statuses[i] == 401)
  {
    var x := db.rows[k].id;
    var expire :| HoldsToken(config.codec, jar, Claims(x, expire));
    AskPings(config, db, jar, check, handler, Claims(x, expire));
    HolderIsSole(db, k, x);
    var db1 := AfterPing(db, IDLE_MINUTES, x);
    var y := db1.rows[k].id;
    ApplyKeepsInv(db, Event.Ping(IDLE_MINUTES, x));
    assert Apply(db, Event.Ping(IDLE_MINUTES, x)) == db1;
    HolderIsSole(db1, k, x);
    assert Echo(db1, k, x, y, db.now) by { assert Sole(db1, k, x); }
    EchoOverRuns(db1, wait, k, x, y, db.now);
    if Run(db1, wait).now > db.now + GRACE {
      StaleJarIsRefused(config, Run(db1, wait), k, Claims(x, expire), y, db.now, jar, rounds);
    }
  }

  /** A gap of more than ten minutes ends the session: the next request and every later one gets 401. */
  lemma LongGapEndsSession(config: Config, db: Db, k: Slot, jar: Jar, check: RoleCheck, handler: Response,
                           later: seq<Event>, checkLater: RoleCheck, handlerLater: Response)
    requires Faithful(config.codec) && Inv(db)
    requires k in db.rows && JarHolds(config.codec, jar, db.rows[k].id)
    requires db.rows[k].lastInteracted + 600_000_000 < db.now
    ensures var (db', response, jar') := Ask(config, db, jar, check, handler);
            && response.status == 401 && jar' == jar
            && db' == db.(rows := db.rows - {k})
            && Ask(config, Run(db', later), jar, checkLater, handlerLater)
               == (Run(db', later), Response(401, None), jar)
  {
    var id := db.rows[k].id;
    var expire :| HoldsToken(config.codec, jar, Claims(id, expire));
    JarIsRead(config, jar, Claims(id, expire));
    HolderIsSole(db, k, id);
    var db' := AfterPing(db, IDLE_MINUTES, id);
    ApplyKeepsInv(db, Ping(IDLE_MINUTES, id));
    assert Apply(db, Ping(IDLE_MINUTES, id)) == db';
    assert !Resolves(db', id) by { assert Sole(db, k, id); }
    RetiredForever(db', later, id);
  }
}
