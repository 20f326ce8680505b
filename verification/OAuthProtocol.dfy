/**
 * The authorization server as a protocol: any number of requests in flight, each
 * stopped at one of its store calls, over a store whose calls are atomic.
 */
module OAuthProtocol {
  import opened Prelude
  import opened OAuthStore

  datatype OAuthError =
    | InvalidClient
    | InvalidRequest
    | InvalidGrant
    | UnsupportedGrantType
    | UnsupportedResponseType

  /** Lifetimes in seconds; absent ones take the defaults. */
  datatype Config = Config(scope: string, codeTtlSeconds: Option<int>, accessTtlSeconds: Option<int>,
          refreshTtlSeconds: Option<int>) {
    function CodeTtl(): int { codeTtlSeconds.GetOr(600) }
    function AccessTtl(): int { accessTtlSeconds.GetOr(3600) }
    function RefreshTtl(): int { refreshTtlSeconds.GetOr(2592000) }
  }

  datatype AuthorizeQuery = AuthorizeQuery(clientId: Option<string>, redirectUri: Option<string>,
          responseType: Option<string>,
                                           codeChallenge: Option<Digest>, challengeMethod: Option<string>)

  datatype AuthorizeRequest = AuthorizeRequest(client: Client, redirectUri: string, codeChallenge: Digest,
          scope: string)

  datatype TokenBody = TokenBody(clientId: Option<string>, grantType: Option<string>, code: Option<string>,
                                 codeVerifier: Option<string>, redirectUri: Option<string>,
                                   refreshToken: Option<string>)

  datatype TokenResponse = TokenResponse(accessToken: string, expiresIn: int, refreshToken: string, scope: string)

  /** An empty string counts as absent. */
  function Str(v: Option<string>): Option<string> {
    if v.Some? && v.value != "" then v else None
  }

  /** The redirect URI a request is for: the one it names, else the client's only one. */
  predicate IsFor(client: Client, q: AuthorizeQuery, uri: string) {
    && uri != "" && uri in client.redirectUris
    && if Str(q.redirectUri).Some? then q.redirectUri == Some(uri) else client.redirectUris == [uri]
  }

  /** A request for a code, with a challenge by S256; an empty challenge counts as absent. */
  predicate Asks(q: AuthorizeQuery) {
    && q.responseType == Some("code") && q.challengeMethod == Some("S256")
    && q.codeChallenge.Some? && q.codeChallenge != Some(NotADigest(""))
  }

  /**
   * The checks on an authorization request, given the client its id names: it is
   * accepted exactly if it asks for a code with an S256 challenge, for a redirect
   * URI of its client's. The redirect URI is checked before anything else.
   */
  function ValidateAuthorize(cfg: Config, client: Option<Client>, q: AuthorizeQuery): (r: Result<AuthorizeRequest,
          OAuthError>)
    ensures r.Ok? <==> client.Some? && Asks(q) && exists uri :: IsFor(client.value, q, uri)
    ensures r.Ok? ==>
              && client == Some(r.value.client) && IsFor(client.value, q, r.value.redirectUri)
              && q.codeChallenge == Some(r.value.codeChallenge) && r.value.scope == cfg.scope
    ensures r == Err(InvalidClient) <==> client.None?
    ensures client.Some? && !(exists uri :: IsFor(client.value, q, uri)) ==> r == Err(InvalidRequest)
    ensures client.Some? && (exists uri :: IsFor(client.value, q, uri)) && !Asks(q) ==>
              r == Err(if q.responseType == Some("code") then InvalidRequest else UnsupportedResponseType)
  {
    if client.None? then Err(InvalidClient) else
    var uris := client.value.redirectUris;
    var asked := Str(q.redirectUri);
    var uri := if asked.Some? then asked else if |uris| == 1 then Some(uris[0]) else None;
    if uri.None? || uri.value == "" || uri.value !in uris then
      assert forall u :: IsFor(client.value, q, u) ==> uri == Some(u);
      Err(InvalidRequest)
    else
      assert IsFor(client.value, q, uri.value) by { assert asked.None? ==> uris == [uri.value]; }
      if q.responseType != Some("code") then Err(UnsupportedResponseType)
      else if q.codeChallenge.None? || q.codeChallenge.value == NotADigest("") || q.challengeMethod != Some("S256") then
        Err(InvalidRequest)
      else Ok(AuthorizeRequest(client.value, uri.value, q.codeChallenge.value, cfg.scope))
  }

  predicate CodeAccepted(record: AuthCode, clientId: string, body: TokenBody, verifier: string, now: int) {
    && record.expiresAt >= now
    && record.clientId == clientId
    && Str(body.redirectUri).GetOr(record.redirectUri) == record.redirectUri
    && Sha256(verifier) == record.codeChallenge
  }

  predicate RefreshAccepted(record: TokenRecord, clientId: string, now: int) {
    record.kind == Refresh && record.expiresAt >= now && record.clientId == clientId
  }

  /** What a grant entitles to; `source` records the row it consumed, which the code never reads again. */
  datatype Grant = Grant(clientId: string, userKey: string, scope: string, source: Digest)

  /** Where one request stands: the store call it waits for, or what it just got back. */
  datatype Local =
    | Authorizing(query: AuthorizeQuery, user: string)
    | Consented(req: AuthorizeRequest, user: string)
    | PuttingCode(code: string, issue: AuthCode)
    | Issued(code: string)
    | Refused(error: OAuthError)
    | TokenStart(body: TokenBody)
    | TakingCode(client: string, body: TokenBody, code: string, verifier: string)
    | CodeTaken(client: string, body: TokenBody, verifier: string, authCode: Option<AuthCode>)
    | TakingRefresh(client: string, refresh: string)
    | RefreshTaken(client: string, record: Option<TokenRecord>)
    | PuttingAccess(grant: Grant, access: string, refresh: string, expiresAt: int)
    | PuttingRefresh(grant: Grant, access: string, refresh: string, expiresAt: int)
    | Answered(response: TokenResponse, source: Digest)
    | ReadingBearer(bearer: string)
    | BearerRead(record: Option<TokenRecord>)
    | Authenticated(record: Option<TokenRecord>)

  /** What the store call a request waits for does to the store. */
  function StoreCall(l: Local, st: Stored): Stored {
    match l
    case PuttingCode(_, issue) => st.(codes := st.codes[issue.codeHash := issue])
    case TakingCode(_, _, code, _) => st.(codes := st.codes - {Sha256(code)})
    case TakingRefresh(_, refresh) => st.(tokens := st.tokens - {Sha256(refresh)})
    case PuttingAccess(g, access, _, exp) =>
      st.(tokens := st.tokens[Sha256(access) := TokenRecord(Sha256(access), Access, g.clientId, g.userKey, g.scope,
        exp)])
    case PuttingRefresh(g, _, refresh, exp) =>
      st.(tokens := st.tokens[Sha256(refresh) := TokenRecord(Sha256(refresh), Refresh, g.clientId, g.userKey, g.scope,
        exp)])
    case _ => st
  }

  /** The code that runs when the call comes back, up to the next one; `s1` and `s2` are the secrets it would draw. */
  function Continue(cfg: Config, l: Local, st: Stored, now: int, s1: string, s2: string): Local {
    match l
    case Authorizing(q, user) =>
      var client := if Str(q.clientId).Some? then Lookup(st.clients, q.clientId.value) else None;
      (match ValidateAuthorize(cfg, client, q) case Err(e) => Refused(e) case Ok(req) => Consented(req, user))
    case Consented(req, user) =>
      PuttingCode(s1,
        AuthCode(Sha256(s1), req.client.clientId, user, req.redirectUri, req.codeChallenge, req.scope,
          now + cfg.CodeTtl()))
    case PuttingCode(code, _) => Issued(code)
    case TokenStart(body) => StartToken(body, st)
    case TakingCode(client, body, code, verifier) => CodeTaken(client, body, verifier, Lookup(st.codes, Sha256(code)))
    case CodeTaken(client, body, verifier, record) =>
      if record.None? || !CodeAccepted(record.value, client, body, verifier, now) then Refused(InvalidGrant)
      else PuttingAccess(Grant(client, record.value.userKey, record.value.scope, record.value.codeHash), s1, s2,
        now + cfg.AccessTtl())
    case TakingRefresh(client, refresh) => RefreshTaken(client, Lookup(st.tokens, Sha256(refresh)))
    case RefreshTaken(client, record) =>
      if record.None? || !RefreshAccepted(record.value, client, now) then Refused(InvalidGrant)
      else PuttingAccess(Grant(client, record.value.userKey, record.value.scope, record.value.tokenHash), s1, s2,
        now + cfg.AccessTtl())
    case PuttingAccess(g, access, refresh, _) => PuttingRefresh(g, access, refresh, now + cfg.RefreshTtl())
    case PuttingRefresh(g, access, refresh, _) =>
      Answered(TokenResponse(access, cfg.AccessTtl(), refresh, g.scope), g.source)
    case ReadingBearer(token) => BearerRead(Lookup(st.tokens, Sha256(token)))
    case BearerRead(record) =>
      Authenticated(if record.Some? && record.value.kind == Access && record.value.expiresAt >= now then record
        else None)
    case _ => l
  }

  function StartToken(body: TokenBody, st: Stored): Local {
    var id := Str(body.clientId);
    if id.None? || id.value !in st.clients then Refused(InvalidClient)
    else if body.grantType == Some("authorization_code") then
      var code, verifier := Str(body.code), Str(body.codeVerifier);
      if code.None? || verifier.None? then Refused(InvalidRequest)
      else TakingCode(id.value, body, code.value, verifier.value)
    else if body.grantType == Some("refresh_token") then
      var refresh := Str(body.refreshToken);
      if refresh.None? then Refused(InvalidGrant) else TakingRefresh(id.value, refresh.value)
    else Refused(UnsupportedGrantType)
  }

  /** A user's consent to an accepted authorization request, for the scope the server grants. */
  datatype Consent = Consent(query: AuthorizeQuery, user: string, scope: string)

  /**
   * The whole system. The last six fields are history the code does not keep:
   * secrets drawn, codes issued in order, the issued code each stored secret
   * descends from (its root), the row each refresh token replaced, the verifier
   * each code was redeemed with, and the consents given.
   */
  datatype Server = Server(store: Stored, now: int, requests: map<nat, Local>,
                           drawn: set<string>, issues: seq<AuthCode>, rootOf: map<Digest, nat>,
                           replaced: map<Digest, Digest>, verifiers: map<nat, string>, consents: set<Consent>)

  const INIT := Server(Stored(map[], map[], map[]), 0, map[], {}, [], map[], map[], map[], {})

  datatype Event =
    | Register(client: Client)
    | Arrive(id: nat, request: Local)
    | Advance(id: nat, s1: string, s2: string)
    | Tick(seconds: nat)
    | Sweep(codes: set<Digest>, tokens: set<Digest>)

  /** Only the first moves of a request may arrive from outside. */
  predicate Arrival(l: Local) {
    l.Authorizing? || l.TokenStart? || l.ReadingBearer?
  }

  /** The moves that draw secrets. */
  predicate Drawing(l: Local) {
    l.Consented? || l.CodeTaken? || l.RefreshTaken?
  }

  function Draws(l: Local, s1: string, s2: string): set<string> {
    if Drawing(l) then {s1, s2} else {}
  }

  /** Random secrets never repeat. */
  predicate Unused(s: Server, l: Local, s1: string, s2: string) {
    Drawing(l) ==> s1 != s2 && s1 !in s.drawn && s2 !in s.drawn
  }

  predicate Enabled(s: Server, e: Event) {
    match e
    case Register(client) => client.clientId !in s.store.clients
    case Arrive(id, request) => id !in s.requests && Arrival(request)
    case Advance(id, s1, s2) => id in s.requests && Unused(s, s.requests[id], s1, s2)
    case _ => true
  }

  function RootOf(s: Server, d: Digest): nat {
    if d in s.rootOf then s.rootOf[d] else 0
  }

  /** One event; an event that is not enabled changes nothing. */
  function Step(cfg: Config, s: Server, e: Event): Server {
    if !Enabled(s, e) then s else
    match e
    case Register(client) => s.(store := s.store.(clients := s.store.clients[client.clientId := client]))
    case Arrive(id, request) => s.(requests := s.requests[id := request])
    case Tick(seconds) => s.(now := s.now + seconds)
    case Sweep(codes, tokens) => s.(store := Swept(s.store, s.now, codes, tokens))
    case Advance(id, s1, s2) => AdvanceRequest(cfg, s, id, s1, s2)
  }

  function AdvanceRequest(cfg: Config, s: Server, id: nat, s1: string, s2: string): Server
    requires id in s.requests
  {
    var l := s.requests[id];
    var l' := Continue(cfg, l, s.store, s.now, s1, s2);
    Recall(cfg, l, l', s.(store := StoreCall(l, s.store), requests := s.requests[id := l'],
                          drawn := s.drawn + Draws(l, s1, s2)))
  }

  /** The history a move from `l` to `l'` writes. */
  function Recall(cfg: Config, l: Local, l': Local, s: Server): (s': Server)
    ensures s' == s.(issues := s'.issues, rootOf := s'.rootOf, replaced := s'.replaced, verifiers := s'.verifiers,
                     consents := s'.consents)
  {
    match l
    case Authorizing(q, user) =>
      if l'.Consented? then s.(consents := s.consents + {Consent(q, user, cfg.scope)}) else s
    case PuttingCode(_, issue) =>
      s.(issues := s.issues + [issue], rootOf := s.rootOf[issue.codeHash := |s.issues|])
    case CodeTaken(_, _, verifier, record) =>
      if l'.PuttingAccess? then s.(verifiers := s.verifiers[RootOf(s, l'.grant.source) := verifier]) else s
    case PuttingAccess(g, access, _, _) => s.(rootOf := s.rootOf[Sha256(access) := RootOf(s, g.source)])
    case PuttingRefresh(g, _, refresh, _) =>
      s.(rootOf := s.rootOf[Sha256(refresh) := RootOf(s, g.source)],
         replaced := s.replaced[Sha256(refresh) := g.source])
    case _ => s
  }

  /** DynamoDB's TTL sweep: any of the rows past their expiry may go. */
  function Swept(st: Stored, now: int, codes: set<Digest>, tokens: set<Digest>): Stored {
    st.(codes := map h | h in st.codes && !(h in codes && st.codes[h].expiresAt < now) :: st.codes[h],
        tokens := map h | h in st.tokens && !(h in tokens && st.tokens[h].expiresAt < now) :: st.tokens[h])
  }

  function Run(cfg: Config, s: Server, events: seq<Event>): Server
    decreases |events|
  {
    if events == [] then s else Run(cfg, Step(cfg, s, events[0]), events[1..])
  }
}
