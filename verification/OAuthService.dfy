/** The service's calls, each proved to be its request's steps in `OAuthProtocol` run without interruption. */
module OAuthService {
  import opened Prelude
  import opened OAuthStore
  import opened OAuthProtocol
  import opened OAuthSafety
  import opened OAuthLineage
  import opened Text

  /** A request at `l`, `steps` moves later, when no other request moves and the clock stands still. */
  function Alone(cfg: Config, l: Local, st: Stored, now: int, s1: string, s2: string, steps: nat): (Stored, Local)
    decreases steps
  {
    if steps == 0 then (st, l)
    else Alone(cfg, Continue(cfg, l, st, now, s1, s2), StoreCall(l, st), now, s1, s2, steps - 1)
  }

  /** The one change to the store that a move makes, if any. */
  function WriteOf(l: Local): seq<Write> {
    match l
    case PuttingCode(_, issue) => [Write.PutCode(issue)]
    case TakingCode(_, _, code, _) => [Write.TakeCode(Sha256(code))]
    case TakingRefresh(_, refresh) => [Write.TakeToken(Sha256(refresh))]
    case PuttingAccess(g, access, _, exp) =>
      [Write.PutToken(TokenRecord(Sha256(access), Access, g.clientId, g.userKey, g.scope, exp))]
    case PuttingRefresh(g, _, refresh, exp) =>
      [Write.PutToken(TokenRecord(Sha256(refresh), Refresh, g.clientId, g.userKey, g.scope, exp))]
    case _ => []
  }

  /** The writes of the same moves, in order. */
  function Writes(cfg: Config, l: Local, st: Stored, now: int, s1: string, s2: string, steps: nat): seq<Write>
    decreases steps
  {
    if steps == 0 then []
    else WriteOf(l) + Writes(cfg, Continue(cfg, l, st, now, s1, s2), StoreCall(l, st), now, s1, s2, steps - 1)
  }

  const TOKEN_STEPS := 5

  datatype RegistrationError = InvalidRedirectUri | InvalidClientMetadata

  /** The name kept for a client: at most 100 characters of the trimmed one, never empty. */
  function ClientName(name: Option<string>): (r: string)
    ensures 1 <= |r| <= 100
    ensures name.Some? && 1 <= |Trim(name.value)| <= 100 ==> r == Trim(name.value)
    ensures name.Some? && |Trim(name.value)| > 100 ==> r == Trim(name.value)[..100]
    ensures name.None? || Trim(name.value) == "" ==> r == "Unnamed client"
  {
    var trimmed := Trim(name.GetOr(""));
    var cut := if |trimmed| > 100 then trimmed[..100] else trimmed;
    if cut == "" then "Unnamed client" else cut
  }

  class OAuthService {
    const store: InMemoryOAuthStore
    const cfg: Config

    constructor (store: InMemoryOAuthStore, cfg: Config)
      ensures this.store == store && this.cfg == cfg
    {
      this.store := store;
      this.cfg := cfg;
    }

    /**
     * `redirectUris` is absent unless the body holds a list of strings, `allowed` says which
     * URIs pass the redirect check, and `id` is the random client id.
     */
    method Register(redirectUris: Option<seq<string>>, allowed: string -> bool, authMethod: Option<string>,
            name: Option<string>, id: string)
      returns (r: Result<Client, RegistrationError>)
      modifies store
      ensures r == Err(InvalidRedirectUri) <==>
                !(redirectUris.Some? && 1 <= |redirectUris.value| <= 10 && forall u :: u in redirectUris.value ==>
                  allowed(u))
      ensures r == Err(InvalidClientMetadata) ==> authMethod.Some? && authMethod != Some("none")
      ensures r.Ok? ==> authMethod.None? || authMethod == Some("none")
      ensures r.Err? ==> store.View() == old(store.View()) && store.writes == old(store.writes)
      ensures r.Ok? ==> r.value == Client(id, ClientName(name), redirectUris.value)
      ensures r.Ok? ==> store.View() == old(store.View()).(clients := old(store.clients)[id := r.value])
    {
      if redirectUris.None? || |redirectUris.value| == 0 || |redirectUris.value| > 10 {
        return Err(InvalidRedirectUri);
      }
      var uris := redirectUris.value;
      for k := 0 to |uris|
        invariant forall u :: u in uris[..k] ==> allowed(u)
      {
        if !allowed(uris[k]) {
          return Err(InvalidRedirectUri);
        }
      }
      assert uris == uris[..|uris|];
      if authMethod.Some? && authMethod.value != "none" {
        return Err(InvalidClientMetadata);
      }
      var client := Client(id, ClientName(name), uris);
      store.PutClient(client);
      return Ok(client);
    }

    method Authorize(q: AuthorizeQuery) returns (r: Result<AuthorizeRequest, OAuthError>)
      ensures forall user, now, s1, s2 ::
                Continue(cfg, Authorizing(q, user), store.View(), now, s1, s2) == if r.Ok?
                  then Consented(r.value, user) else Refused(r.error)
    {
      var id := Str(q.clientId);
      var client := None;
      if id.Some? {
        client := store.GetClient(id.value);
      }
      r := ValidateAuthorize(cfg, client, q);
    }

    method IssueCode(req: AuthorizeRequest, user: string, now: int, secret: string,
            unused: string) returns (code: string)
      modifies store
      ensures (store.View(), Issued(code))
              == Alone(cfg, Consented(req, user), old(store.View()), now, secret, unused, 2)
      ensures code == secret
      ensures store.writes == old(store.writes)
              + [Write.PutCode(AuthCode(Sha256(secret), req.client.clientId, user, req.redirectUri, req.codeChallenge,
                req.scope, now + cfg.codeTtlSeconds.GetOr(600)))]
      ensures store.writes == old(store.writes)
              + Writes(cfg, Consented(req, user), old(store.View()), now, secret, unused, 2)
    {
      ghost var l := Continue(cfg, Consented(req, user), store.View(), now, secret, unused);
      ghost var st := store.View();
      store.PutCode(AuthCode(Sha256(secret), req.client.clientId, user, req.redirectUri, req.codeChallenge, req.scope,
        now + cfg.CodeTtl()));
      assert store.View() == StoreCall(l, st);
      assert Alone(cfg, l, st, now, secret, unused, 1) == (store.View(), Issued(secret));
      assert Writes(cfg, l, st, now, secret, unused, 1) == WriteOf(l);
      code := secret;
    }

    method Token(body: TokenBody, now: int, access: string, refresh: string) returns (r: Result<TokenResponse,
            OAuthError>)
      modifies store
      ensures var (st, l) := Alone(cfg, TokenStart(body), old(store.View()), now, access, refresh, TOKEN_STEPS);
        store.View() == st && (if r.Ok? then l.Answered? && l.response == r.value else l == Refused(r.error))
      ensures store.writes == old(store.writes)
              + Writes(cfg, TokenStart(body), old(store.View()), now, access, refresh, TOKEN_STEPS)
    {
      ghost var st0 := store.View();
      TokenStarts(cfg, body, st0, now, access, refresh);
      var id := Str(body.clientId);
      if id.None? { RefusedStays(cfg, InvalidClient, st0, now, access, refresh, 4); return Err(InvalidClient); }
      var client := store.GetClient(id.value);
      if client.None? { RefusedStays(cfg, InvalidClient, st0, now, access, refresh, 4); return Err(InvalidClient); }
      if body.grantType == Some("authorization_code") {
        var code, verifier := Str(body.code), Str(body.codeVerifier);
        if code.None? || verifier.None? {
          RefusedStays(cfg, InvalidRequest, st0, now, access, refresh, 4);
          return Err(InvalidRequest);
        }
        r := RedeemCode(id.value, body, code.value, verifier.value, now, access, refresh);
      } else if body.grantType == Some("refresh_token") {
        var token := Str(body.refreshToken);
        if token.None? { RefusedStays(cfg, InvalidGrant, st0, now, access, refresh, 4); return Err(InvalidGrant); }
        r := Rotate(id.value, token.value, now, access, refresh);
      } else {
        RefusedStays(cfg, UnsupportedGrantType, st0, now, access, refresh, 4);
        return Err(UnsupportedGrantType);
      }
    }

    method RedeemCode(client: string, body: TokenBody, code: string, verifier: string, now: int, access: string,
            refresh: string)
      returns (r: Result<TokenResponse, OAuthError>)
      modifies store
      ensures var (st, l) :=
              Alone(cfg, TakingCode(client, body, code, verifier), old(store.View()), now, access, refresh, 4);
        store.View() == st && (if r.Ok? then l.Answered? && l.response == r.value else l == Refused(r.error))
      ensures store.writes == old(store.writes)
              + Writes(cfg, TakingCode(client, body, code, verifier), old(store.View()), now, access, refresh, 4)
    {
      Redeems(cfg, client, body, code, verifier, store.View(), now, access, refresh);
      var record := store.TakeCode(Sha256(code));
      if record.None? || !CodeAccepted(record.value, client, body, verifier, now) {
        return Err(InvalidGrant);
      }
      r := IssueTokens(Grant(client, record.value.userKey, record.value.scope, record.value.codeHash), now, access,
        refresh);
    }

    method Rotate(client: string, token: string, now: int, access: string,
            refresh: string) returns (r: Result<TokenResponse, OAuthError>)
      modifies store
      ensures var (st, l) := Alone(cfg, TakingRefresh(client, token), old(store.View()), now, access, refresh, 4);
        store.View() == st && (if r.Ok? then l.Answered? && l.response == r.value else l == Refused(r.error))
      ensures store.writes == old(store.writes)
              + Writes(cfg, TakingRefresh(client, token), old(store.View()), now, access, refresh, 4)
    {
      Rotates(cfg, client, token, store.View(), now, access, refresh);
      var record := store.TakeToken(Sha256(token));
      if record.None? || !RefreshAccepted(record.value, client, now) {
        return Err(InvalidGrant);
      }
      r := IssueTokens(Grant(client, record.value.userKey, record.value.scope, record.value.tokenHash), now, access,
        refresh);
    }

    method IssueTokens(g: Grant, now: int, access: string, refresh: string) returns (r: Result<TokenResponse,
            OAuthError>)
      modifies store
      ensures r == Ok(TokenResponse(accessToken := access, expiresIn := cfg.accessTtlSeconds.GetOr(3600),
                refreshToken := refresh, scope := g.scope))
      ensures var (st, l) :=
              Alone(cfg, PuttingAccess(g, access, refresh, now + cfg.AccessTtl()), old(store.View()), now, access,
                refresh, 2);
        store.View() == st && l == Answered(r.value, g.source)
      ensures store.writes == old(store.writes)
              + [Write.PutToken(TokenRecord(Sha256(access), Access, g.clientId, g.userKey, g.scope,
                now + cfg.accessTtlSeconds.GetOr(3600))),
                 Write.PutToken(TokenRecord(Sha256(refresh), Refresh, g.clientId, g.userKey, g.scope,
                   now + cfg.refreshTtlSeconds.GetOr(2592000)))]
      ensures store.writes == old(store.writes)
              + Writes(cfg, PuttingAccess(g, access, refresh, now + cfg.AccessTtl()), old(store.View()), now, access,
                  refresh, 2)
    {
      GrantWrites(cfg, g, store.View(), now, access, refresh);
      ghost var l1, st0 := PuttingAccess(g, access, refresh, now + cfg.AccessTtl()), store.View();
      store.PutToken(TokenRecord(Sha256(access), Access, g.clientId, g.userKey, g.scope, now + cfg.AccessTtl()));
      ghost var l2, st1 := PuttingRefresh(g, access, refresh, now + cfg.RefreshTtl()), store.View();
      assert st1 == StoreCall(l1, st0) && Continue(cfg, l1, st0, now, access, refresh) == l2;
      store.PutToken(TokenRecord(Sha256(refresh), Refresh, g.clientId, g.userKey, g.scope, now + cfg.RefreshTtl()));
      r := Ok(TokenResponse(access, cfg.AccessTtl(), refresh, g.scope));
      assert store.View() == StoreCall(l2, st1);
      assert Alone(cfg, l2, st1, now, access, refresh, 1) == (store.View(), Answered(r.value, g.source));
    }

    /** `bearer` is the token in the authorization header, if the header has that form. */
    method Authenticate(bearer: Option<string>, now: int) returns (r: Option<TokenRecord>)
      ensures r.Some? <==>
                && bearer.Some? && var h := Sha256(bearer.value);
                h in store.tokens && store.tokens[h].kind == Access && now <= store.tokens[h].expiresAt
      ensures r.Some? ==> r.value == store.tokens[Sha256(bearer.value)]
      ensures bearer.Some? ==>
              Alone(cfg, ReadingBearer(bearer.value), store.View(), now, "", "", 2) == (store.View(), Authenticated(r))
    {
      if bearer.None? { return None; }
      var record := store.GetToken(Sha256(bearer.value));
      assert record == Lookup(store.tokens, Sha256(bearer.value));
      assert Continue(cfg, ReadingBearer(bearer.value), store.View(), now, "", "") == BearerRead(record);
      r := if record.None? || record.value.kind != Access || record.value.expiresAt < now then None else record;
      assert Alone(cfg, BearerRead(record), store.View(), now, "", "", 1) == (store.View(), Authenticated(r));
    }
  }

  /** A token request reads the client, and then stands where `StartToken` says. */
  lemma TokenStarts(cfg: Config, body: TokenBody, st: Stored, now: int, s1: string, s2: string)
    ensures var l := StartToken(body, st);
      && Alone(cfg, TokenStart(body), st, now, s1, s2, TOKEN_STEPS) == Alone(cfg, l, st, now, s1, s2, 4)
      && Writes(cfg, TokenStart(body), st, now, s1, s2, TOKEN_STEPS) == Writes(cfg, l, st, now, s1, s2, 4)
  {
    assert Continue(cfg, TokenStart(body), st, now, s1, s2) == StartToken(body, st);
    assert StoreCall(TokenStart(body), st) == st;
  }

  lemma {:induction false} RefusedStays(cfg: Config, e: OAuthError, st: Stored, now: int, s1: string, s2: string,
          steps: nat)
    ensures Alone(cfg, Refused(e), st, now, s1, s2, steps) == (st, Refused(e))
    ensures Writes(cfg, Refused(e), st, now, s1, s2, steps) == []
  {
    if steps != 0 { RefusedStays(cfg, e, st, now, s1, s2, steps - 1); }
  }

  // What a token call does -------------------------------------------------------------

  /** The store after a grant: one access and one refresh token, with the grant's client, user and scope. */
  function Granted(cfg: Config, st: Stored, client: string, user: string, scope: string, now: int, access: string,
          refresh: string): Stored {
    var a := TokenRecord(Sha256(access), Access, client, user, scope, now + cfg.AccessTtl());
    var r := TokenRecord(Sha256(refresh), Refresh, client, user, scope, now + cfg.RefreshTtl());
    st.(tokens := st.tokens[Sha256(access) := a][Sha256(refresh) := r])
  }

  lemma GrantAlone(cfg: Config, g: Grant, st: Stored, now: int, access: string, refresh: string)
    ensures Alone(cfg, PuttingAccess(g, access, refresh, now + cfg.AccessTtl()), st, now, access, refresh, 2) ==
      (Granted(cfg, st, g.clientId, g.userKey, g.scope, now, access, refresh),
       Answered(TokenResponse(access, cfg.AccessTtl(), refresh, g.scope), g.source))
  {
    var l1 := PuttingAccess(g, access, refresh, now + cfg.AccessTtl());
    var l2 := PuttingRefresh(g, access, refresh, now + cfg.RefreshTtl());
    var st1 := StoreCall(l1, st);
    assert Continue(cfg, l1, st, now, access, refresh) == l2;
    assert Alone(cfg, l2, st1, now, access, refresh, 1) ==
      (StoreCall(l2, st1), Answered(TokenResponse(access, cfg.AccessTtl(), refresh, g.scope), g.source));
  }

  /** Granting puts the access token, then the refresh token. */
  lemma GrantWrites(cfg: Config, g: Grant, st: Stored, now: int, access: string, refresh: string)
    ensures Writes(cfg, PuttingAccess(g, access, refresh, now + cfg.AccessTtl()), st, now, access, refresh, 2)
            == [Write.PutToken(TokenRecord(Sha256(access), Access, g.clientId, g.userKey, g.scope,
                  now + cfg.AccessTtl())),
                Write.PutToken(TokenRecord(Sha256(refresh), Refresh, g.clientId, g.userKey, g.scope,
                  now + cfg.RefreshTtl()))]
  {
    var l1 := PuttingAccess(g, access, refresh, now + cfg.AccessTtl());
    var l2 := PuttingRefresh(g, access, refresh, now + cfg.RefreshTtl());
    assert Continue(cfg, l1, st, now, access, refresh) == l2;
    assert Writes(cfg, l2, StoreCall(l1, st), now, access, refresh, 1) == WriteOf(l2);
  }

  lemma TwoMoves(cfg: Config, l: Local, st: Stored, now: int, s1: string, s2: string, steps: nat)
    requires steps >= 2
    ensures var l1, st1 := Continue(cfg, l, st, now, s1, s2), StoreCall(l, st);
      var l2, st2 := Continue(cfg, l1, st1, now, s1, s2), StoreCall(l1, st1);
      && Alone(cfg, l, st, now, s1, s2, steps) == Alone(cfg, l2, st2, now, s1, s2, steps - 2)
      && Writes(cfg, l, st, now, s1, s2, steps)
         == WriteOf(l) + WriteOf(l1) + Writes(cfg, l2, st2, now, s1, s2, steps - 2)
  {
    var l1, st1 := Continue(cfg, l, st, now, s1, s2), StoreCall(l, st);
    assert Alone(cfg, l, st, now, s1, s2, steps) == Alone(cfg, l1, st1, now, s1, s2, steps - 1);
    assert Writes(cfg, l, st, now, s1, s2, steps) == WriteOf(l) + Writes(cfg, l1, st1, now, s1, s2, steps - 1);
  }

  /** Redeeming takes the code, and then grants or refuses. */
  lemma Redeems(cfg: Config, client: string, body: TokenBody, code: string, verifier: string, st: Stored, now: int,
          access: string, refresh: string)
    ensures var taking, h := TakingCode(client, body, code, verifier), Sha256(code);
      var spent := st.(codes := st.codes - {h});
      var end, writes := Alone(cfg, taking, st, now, access, refresh, 4),
        Writes(cfg, taking, st, now, access, refresh, 4);
      if h in st.codes && CodeAccepted(st.codes[h], client, body, verifier, now) then
        var grant := PuttingAccess(Grant(client, st.codes[h].userKey, st.codes[h].scope, st.codes[h].codeHash), access,
          refresh, now + cfg.AccessTtl());
        && end == Alone(cfg, grant, spent, now, access, refresh, 2)
        && writes == [Write.TakeCode(h)] + Writes(cfg, grant, spent, now, access, refresh, 2)
      else end == (spent, Refused(InvalidGrant)) && writes == [Write.TakeCode(h)]
  {
    var taking := TakingCode(client, body, code, verifier);
    TwoMoves(cfg, taking, st, now, access, refresh, 4);
    RefusedStays(cfg, InvalidGrant, StoreCall(taking, st), now, access, refresh, 2);
  }

  /** Rotating takes the refresh token, and then grants or refuses. */
  lemma Rotates(cfg: Config, client: string, token: string, st: Stored, now: int, access: string, refresh: string)
    ensures var taking, h := TakingRefresh(client, token), Sha256(token);
      var spent := st.(tokens := st.tokens - {h});
      var end, writes := Alone(cfg, taking, st, now, access, refresh, 4),
        Writes(cfg, taking, st, now, access, refresh, 4);
      if h in st.tokens && RefreshAccepted(st.tokens[h], client, now) then
        var grant := PuttingAccess(Grant(client, st.tokens[h].userKey, st.tokens[h].scope, st.tokens[h].tokenHash),
          access, refresh, now + cfg.AccessTtl());
        && end == Alone(cfg, grant, spent, now, access, refresh, 2)
        && writes == [Write.TakeToken(h)] + Writes(cfg, grant, spent, now, access, refresh, 2)
      else end == (spent, Refused(InvalidGrant)) && writes == [Write.TakeToken(h)]
  {
    var taking := TakingRefresh(client, token);
    TwoMoves(cfg, taking, st, now, access, refresh, 4);
    RefusedStays(cfg, InvalidGrant, StoreCall(taking, st), now, access, refresh, 2);
  }

  /** What entitles a client to redeem a code. */
  predicate Redeemable(st: Stored, client: string, body: TokenBody, code: string, verifier: string, now: int) {
    var h := Sha256(code);
    && h in st.codes && now <= st.codes[h].expiresAt && st.codes[h].clientId == client
    && (Str(body.redirectUri).Some? ==> body.redirectUri == Some(st.codes[h].redirectUri))
    && st.codes[h].codeChallenge == Sha256(verifier)
  }

  /**
   * Redeeming a code consumes it whatever happens. It grants tokens for the
   * code's user and scope exactly when the code is stored and unexpired, was
   * issued to this client, for the redirect URI named if one is named, and the
   * verifier hashes to its challenge; otherwise it grants nothing.
   */
  lemma CodeExchange(cfg: Config, client: string, body: TokenBody, code: string, verifier: string, st: Stored, now: int,
          access: string, refresh: string)
    ensures var (st', l) := Alone(cfg, TakingCode(client, body, code, verifier), st, now, access, refresh, 4);
      var h, spent := Sha256(code), st.(codes := st.codes - {Sha256(code)});
      && (l.Answered? <==> Redeemable(st, client, body, code, verifier, now))
      && (if l.Answered?
          then
            && st' == Granted(cfg, spent, client, st.codes[h].userKey, st.codes[h].scope, now, access, refresh)
            && l.response == TokenResponse(accessToken := access, expiresIn := cfg.AccessTtl(), refreshToken := refresh,
                               scope := st.codes[h].scope)
          else st' == spent && l == Refused(InvalidGrant))
  {
    Redeems(cfg, client, body, code, verifier, st, now, access, refresh);
    var h := Sha256(code);
    if Redeemable(st, client, body, code, verifier, now) {
      GrantAlone(cfg, Grant(client, st.codes[h].userKey, st.codes[h].scope, st.codes[h].codeHash),
        st.(codes := st.codes - {h}), now, access, refresh);
    }
  }

  /** What entitles a client to rotate a refresh token. */
  predicate Rotatable(st: Stored, client: string, token: string, now: int) {
    var h := Sha256(token);
    h in st.tokens && st.tokens[h].kind == Refresh && now <= st.tokens[h].expiresAt && st.tokens[h].clientId == client
  }

  /** Rotating consumes the token presented, and grants new ones exactly for this client's unexpired refresh token. */
  lemma RefreshExchange(cfg: Config, client: string, token: string, st: Stored, now: int, access: string,
          refresh: string)
    ensures var (st', l) := Alone(cfg, TakingRefresh(client, token), st, now, access, refresh, 4);
      var h, spent := Sha256(token), st.(tokens := st.tokens - {Sha256(token)});
      && (l.Answered? <==> Rotatable(st, client, token, now))
      && (if l.Answered?
          then
            && st' == Granted(cfg, spent, client, st.tokens[h].userKey, st.tokens[h].scope, now, access, refresh)
            && l.response == TokenResponse(accessToken := access, expiresIn := cfg.AccessTtl(), refreshToken := refresh,
                               scope := st.tokens[h].scope)
          else st' == spent && l == Refused(InvalidGrant))
  {
    Rotates(cfg, client, token, st, now, access, refresh);
    var h := Sha256(token);
    if Rotatable(st, client, token, now) {
      GrantAlone(cfg, Grant(client, st.tokens[h].userKey, st.tokens[h].scope, st.tokens[h].tokenHash),
        st.(tokens := st.tokens - {h}), now, access, refresh);
    }
  }

  /** The client a token request names, if it is registered. */
  predicate Names(st: Stored, body: TokenBody, client: string) {
    client != "" && body.clientId == Some(client) && client in st.clients
  }

  /**
   * A token request from beginning to end. Of a registered client, one for an
   * authorization code is answered exactly when it has a code and a verifier that
   * entitle the client to redeem; one for a refresh token, when it has one the
   * client may rotate. Every other one is refused, each for its own reason, and
   * only a code or a refresh token presented is consumed.
   */
  lemma TokenIs(cfg: Config, body: TokenBody, client: string, st: Stored, now: int, access: string, refresh: string)
    requires Names(st, body, client)
    ensures var (st', l) := Alone(cfg, TokenStart(body), st, now, access, refresh, TOKEN_STEPS);
      var code, verifier, token := body.code.GetOr(""), body.codeVerifier.GetOr(""), body.refreshToken.GetOr("");
      if body.grantType == Some("authorization_code") then
        if code == "" || verifier == "" then (st', l) == (st, Refused(InvalidRequest))
        else
          && (l.Answered? <==> Redeemable(st, client, body, code, verifier, now))
          && (st', l) == Alone(cfg, TakingCode(client, body, code, verifier), st, now, access, refresh, 4)
      else if body.grantType == Some("refresh_token") then
        if token == "" then (st', l) == (st, Refused(InvalidGrant))
        else
          && (l.Answered? <==> Rotatable(st, client, token, now))
          && (st', l) == Alone(cfg, TakingRefresh(client, token), st, now, access, refresh, 4)
      else (st', l) == (st, Refused(UnsupportedGrantType))
  {
    TokenStarts(cfg, body, st, now, access, refresh);
    StartsAt(body, client, st);
    var code, verifier, token := body.code.GetOr(""), body.codeVerifier.GetOr(""), body.refreshToken.GetOr("");
    match StartToken(body, st)
    case TakingCode(_, _, _, _) => CodeExchange(cfg, client, body, code, verifier, st, now, access, refresh);
    case TakingRefresh(_, _) => RefreshExchange(cfg, client, token, st, now, access, refresh);
    case Refused(e) => RefusedStays(cfg, e, st, now, access, refresh, 4);
  }

  /** Which exchange a registered client's request leads to. */
  lemma StartsAt(body: TokenBody, client: string, st: Stored)
    requires Names(st, body, client)
    ensures var code, verifier, token := body.code.GetOr(""), body.codeVerifier.GetOr(""), body.refreshToken.GetOr("");
      StartToken(body, st) ==
        if body.grantType == Some("authorization_code") then
          if code == "" || verifier == "" then Refused(InvalidRequest) else TakingCode(client, body, code, verifier)
        else if body.grantType == Some("refresh_token") then
          if token == "" then Refused(InvalidGrant) else TakingRefresh(client, token)
        else Refused(UnsupportedGrantType)
  {
  }

  /** Without a registered client nothing happens. */
  lemma UnknownClientIsRefused(cfg: Config, body: TokenBody, st: Stored, now: int, access: string, refresh: string)
    requires !exists client :: Names(st, body, client)
    ensures Alone(cfg, TokenStart(body), st, now, access, refresh, TOKEN_STEPS) == (st, Refused(InvalidClient))
  {
    TokenStarts(cfg, body, st, now, access, refresh);
    RefusedStays(cfg, InvalidClient, st, now, access, refresh, 4);
    if body.clientId.Some? { assert !Names(st, body, body.clientId.value); }
  }

  // A call is a run -----------------------------------------------------------------

  function Repeat(e: Event, n: nat): seq<Event> {
    if n == 0 then [] else [e] + Repeat(e, n - 1)
  }

  /** Moves before a request draws its secrets. */
  predicate BeforeDraw(l: Local) {
    l.TokenStart? || l.TakingCode? || l.TakingRefresh? || Drawing(l)
  }

  /** What the service's calls compute is what the protocol reaches when the request moves alone. */
  lemma {:induction false} AloneIsARun(cfg: Config, s: Server, i: nat, s1: string, s2: string, steps: nat)
    requires i in s.requests && !s.requests[i].Authorizing?
    requires BeforeDraw(s.requests[i]) ==> s1 != s2 && s1 !in s.drawn && s2 !in s.drawn
    ensures var s' := Run(cfg, s, Repeat(Advance(i, s1, s2), steps));
      && i in s'.requests
      && (s'.store, s'.requests[i]) == Alone(cfg, s.requests[i], s.store, s.now, s1, s2, steps)
    decreases steps
  {
    if steps != 0 {
      var e := Advance(i, s1, s2);
      var events := Repeat(e, steps);
      assert events[0] == e && events[1..] == Repeat(e, steps - 1);
      OneMove(cfg, s, i, s1, s2);
      AloneIsARun(cfg, Step(cfg, s, e), i, s1, s2, steps - 1);
    }
  }

  lemma OneMove(cfg: Config, s: Server, i: nat, s1: string, s2: string)
    requires i in s.requests && !s.requests[i].Authorizing?
    requires BeforeDraw(s.requests[i]) ==> s1 != s2 && s1 !in s.drawn && s2 !in s.drawn
    ensures var l, s' := s.requests[i], Step(cfg, s, Advance(i, s1, s2));
      && s'.store == StoreCall(l, s.store) && s'.now == s.now
      && i in s'.requests && s'.requests[i] == Continue(cfg, l, s.store, s.now, s1, s2)
      && !s'.requests[i].Authorizing?
      && (BeforeDraw(s'.requests[i]) ==> s1 !in s'.drawn && s2 !in s'.drawn && BeforeDraw(l))
  {
  }

  /**
   * A sequential `token` call from any reachable state leaves a reachable store:
   * it is the run in which the request arrives and moves alone.
   */
  lemma TokenCallIsARun(cfg: Config, events: seq<Event>, i: nat, body: TokenBody, s1: string, s2: string)
    requires var s := Run(cfg, INIT, events); i !in s.requests && s1 != s2 && s1 !in s.drawn && s2 !in s.drawn
    ensures var s := Run(cfg, INIT, events);
      var s' := Run(cfg, INIT, events + [Arrive(i, TokenStart(body))] + Repeat(Advance(i, s1, s2), TOKEN_STEPS));
      && i in s'.requests
      && (s'.store, s'.requests[i]) == Alone(cfg, TokenStart(body), s.store, s.now, s1, s2, TOKEN_STEPS)
  {
    var s := Run(cfg, INIT, events);
    var arrive := Arrive(i, TokenStart(body));
    RunAppend(cfg, INIT, events, [arrive]);
    RunAppend(cfg, INIT, events + [arrive], Repeat(Advance(i, s1, s2), TOKEN_STEPS));
    assert Run(cfg, s, [arrive]) == Step(cfg, s, arrive);
    AloneIsARun(cfg, Step(cfg, s, arrive), i, s1, s2, TOKEN_STEPS);
  }

  lemma {:induction false} RunAppend(cfg: Config, s: Server, a: seq<Event>, b: seq<Event>)
    ensures Run(cfg, s, a + b) == Run(cfg, Run(cfg, s, a), b)
    decreases |a|
  {
    if a == [] {
      assert a + b == b;
    } else {
      assert (a + b)[0] == a[0] && (a + b)[1..] == a[1..] + b;
      RunAppend(cfg, Step(cfg, s, a[0]), a[1..], b);
    }
  }

  // User keys -------------------------------------------------------------------------

  function UserKey(provider: string, account: string): string {
    provider + ":" + account
  }

  function IndexOf(c: char, s: string): (i: int)
    ensures -1 <= i < |s|
    ensures i >= 0 ==> s[i] == c && forall k :: 0 <= k < i ==> s[k] != c
    ensures i < 0 <==> c !in s
  {
    if s == [] then -1
    else if s[0] == c then 0
    else
      var rest := IndexOf(c, s[1..]);
      assert s == [s[0]] + s[1..];
      if rest < 0 then -1 else rest + 1
  }

  /** The split the bearer check makes, at the first colon; a key with no provider is refused. */
  function SplitUserKey(key: string): Option<(string, string)> {
    var sep := IndexOf(':', key);
    if sep < 1 then None else Some((key[..sep], key[sep + 1..]))
  }

  /** The split recovers the pair exactly for the non-empty providers without a colon, whatever the account id holds. */
  lemma SplitRecovers(provider: string, account: string)
    ensures SplitUserKey(UserKey(provider, account)) == Some((provider, account)) <==>
            provider != "" && ':' !in provider
  {
    var key := UserKey(provider, account);
    assert key[|provider|] == ':' && key[..|provider|] == provider && key[|provider| + 1..] == account;
    var sep := IndexOf(':', key);
    assert sep < |provider| ==> key[sep] == provider[sep];
  }
}
