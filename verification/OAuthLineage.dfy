/** Refresh chains are linear, and every token traces back to one consented code. */
module OAuthLineage {
  import opened Prelude
  import opened OAuthStore
  import opened OAuthProtocol
  import opened OAuthSafety

  // Linear chains ----------------------------------------------------------------

  ghost predicate Consumed(s: Server, d: Digest) {
    && d in s.rootOf && d !in s.store.codes && d !in s.store.tokens
    && (forall i :: i in s.requests ==> Taken(s.requests[i]) != Some(d))
  }

  /** What a refresh token replaced is gone for good, and of the same root. */
  ghost predicate Chained(s: Server) {
    forall d :: d in s.replaced ==>
      d in s.rootOf && Consumed(s, s.replaced[d]) && RootOf(s, s.replaced[d]) == RootOf(s, d)
  }

  ghost predicate Unforked(s: Server) {
    forall d, d' :: d in s.replaced && d' in s.replaced && d != d' ==> s.replaced[d] != s.replaced[d']
  }

  /** Every stored refresh token replaced a row. */
  ghost predicate Originated(s: Server) {
    forall h :: h in s.store.tokens && s.store.tokens[h].kind == Refresh ==> h in s.replaced
  }

  ghost predicate Linear(s: Server) {
    Chained(s) && Unforked(s) && Originated(s)
  }

  predicate Recorded(s: Server, l: Local) {
    l.Answered? ==>
      && Sha256(l.response.refreshToken) in s.replaced
      && s.replaced[Sha256(l.response.refreshToken)] == l.source
  }

  ghost predicate AnswersDistinct(s: Server) {
    && (forall i :: i in s.requests ==> Recorded(s, s.requests[i]))
    && (forall i, j ::
          i in s.requests && j in s.requests && i != j && s.requests[i].Answered? && s.requests[j].Answered? ==>
          s.requests[i].response.refreshToken != s.requests[j].response.refreshToken)
  }

  predicate ReplacedMoves(s: Server, s': Server, l: Local, l': Local) {
    && (s'.replaced == if l.PuttingRefresh? then s.replaced[Sha256(l.refresh) := l.grant.source] else s.replaced)
    && (l.PuttingRefresh? ==>
       Sha256(l.refresh) in s'.rootOf && RootOf(s', Sha256(l.refresh)) == RootOf(s, l.grant.source) && Taken(l').None?)
    && (l'.Answered? ==>
       l' == l || (l.PuttingRefresh? && l'.response.refreshToken == l.refresh && l'.source == l.grant.source))
  }

  lemma AdvanceReplaces(cfg: Config, s: Server, i: nat, s1: string, s2: string)
    requires i in s.requests
    ensures var s' := AdvanceRequest(cfg, s, i, s1, s2); ReplacedMoves(s, s', s.requests[i], s'.requests[i])
  {
    if !s.requests[i].PuttingRefresh? {
      assert AdvanceRequest(cfg, s, i, s1, s2).replaced == s.replaced;
    }
  }

  lemma MovesKeepConsumed(s: Server, s': Server, i: nat, s1: string, s2: string, d: Digest)
    requires Fresh(s) && Ready(s, i, s1, s2) && Moves(s, s', i, s1, s2)
    requires Consumed(s, d)
    ensures Consumed(s', d) && RootOf(s', d) == RootOf(s, d)
  {
  }

  lemma ReplacedIsConsumed(s: Server, s': Server, i: nat, s1: string, s2: string)
    requires Fresh(s) && OneHolder(s) && Ready(s, i, s1, s2) && Moves(s, s', i, s1, s2)
    requires s.requests[i].PuttingRefresh? && Taken(s'.requests[i]).None?
    ensures Consumed(s', s.requests[i].grant.source)
  {
    var d := s.requests[i].grant.source;
    assert Holds(s, InFlight(i), RootOf(s, d));
    forall j | j in s'.requests && j != i
      ensures Taken(s'.requests[j]) != Some(d)
    {
      if Taken(s'.requests[j]) == Some(d) {
        assert Holds(s, InFlight(j), RootOf(s, d));
      }
    }
  }

  lemma MovesKeepChains(s: Server, s': Server, i: nat, s1: string, s2: string)
    requires Fresh(s) && OneHolder(s) && Chained(s) && Ready(s, i, s1, s2)
    requires Moves(s, s', i, s1, s2) && ReplacedMoves(s, s', s.requests[i], s'.requests[i])
    ensures Chained(s')
  {
    forall d | d in s.replaced { MovesKeepConsumed(s, s', i, s1, s2, s.replaced[d]); }
    if s.requests[i].PuttingRefresh? { ReplacedIsConsumed(s, s', i, s1, s2); }
  }

  lemma MovesKeepReplacements(s: Server, s': Server, i: nat, s1: string, s2: string)
    requires Fresh(s) && Chained(s) && Unforked(s) && Ready(s, i, s1, s2) && i in s'.requests
    requires ReplacedMoves(s, s', s.requests[i], s'.requests[i])
    ensures Unforked(s')
  {
    if s.requests[i].PuttingRefresh? {
      assert forall d :: d in s.replaced ==> Consumed(s, s.replaced[d]) && s.replaced[d] != s.requests[i].grant.source;
    }
  }

  lemma MovesKeepLinear(s: Server, s': Server, i: nat, s1: string, s2: string)
    requires Fresh(s) && OneHolder(s) && Linear(s) && Ready(s, i, s1, s2)
    requires Moves(s, s', i, s1, s2) && ReplacedMoves(s, s', s.requests[i], s'.requests[i])
    requires Births(s, s', s.requests[i], s'.requests[i])
    ensures Linear(s')
  {
    MovesKeepChains(s, s', i, s1, s2);
    MovesKeepReplacements(s, s', i, s1, s2);
    MovesKeepOrigins(s, s', i, s1, s2);
  }

  lemma MovesKeepOrigins(s: Server, s': Server, i: nat, s1: string, s2: string)
    requires Originated(s) && Moves(s, s', i, s1, s2)
    requires ReplacedMoves(s, s', s.requests[i], s'.requests[i]) && Births(s, s', s.requests[i], s'.requests[i])
    ensures Originated(s')
  {
  }

  lemma MoveRecorded(s: Server, s': Server, i: nat, j: nat)
    requires i in s.requests && i in s'.requests && ReplacedMoves(s, s', s.requests[i], s'.requests[i])
    requires s.requests[i].PuttingRefresh? ==> Sha256(s.requests[i].refresh) !in s.replaced
    requires j in s'.requests && (j != i ==> j in s.requests && s'.requests[j] == s.requests[j])
    requires Recorded(s, s.requests[j])
    ensures Recorded(s', s'.requests[j])
  {
  }

  /** The refresh token an answer carries was not an earlier answer's. */
  lemma AnswerIsNew(s: Server, s': Server, i: nat, j: nat)
    requires i in s.requests && i in s'.requests && ReplacedMoves(s, s', s.requests[i], s'.requests[i])
    requires s.requests[i].PuttingRefresh? ==> Sha256(s.requests[i].refresh) !in s.replaced
    requires j in s.requests && Recorded(s, s.requests[j]) && s.requests[j].Answered?
    requires s'.requests[i].Answered? && s'.requests[i] != s.requests[i]
    ensures s'.requests[i].response.refreshToken != s.requests[j].response.refreshToken
  {
  }

  lemma MovesKeepAnswers(s: Server, s': Server, i: nat, s1: string, s2: string)
    requires Fresh(s) && Linear(s) && AnswersDistinct(s) && Ready(s, i, s1, s2)
    requires Moves(s, s', i, s1, s2) && ReplacedMoves(s, s', s.requests[i], s'.requests[i])
    ensures AnswersDistinct(s')
  {
    RefreshIsNew(s, s.requests[i]);
    assert s'.requests == s.requests[i := s'.requests[i]];
    forall j | j in s'.requests ensures Recorded(s', s'.requests[j]) {
      MoveRecorded(s, s', i, j);
    }
    if s'.requests[i].Answered? && s'.requests[i] != s.requests[i] {
      forall j | j in s.requests && j != i && s.requests[j].Answered?
        ensures s'.requests[i].response.refreshToken != s.requests[j].response.refreshToken
      {
        AnswerIsNew(s, s', i, j);
      }
    }
  }

  lemma RefreshIsNew(s: Server, l: Local)
    requires RequestFresh(s, l) && Chained(s)
    ensures l.PuttingRefresh? ==> Sha256(l.refresh) !in s.replaced
  {
    if l.PuttingRefresh? { assert l.refresh in Undelivered(l); }
  }

  lemma LineageKept(cfg: Config, s: Server, e: Event)
    requires Fresh(s) && OneHolder(s) && Linear(s) && AnswersDistinct(s)
    ensures Linear(Step(cfg, s, e)) && AnswersDistinct(Step(cfg, s, e))
  {
    if e.Advance? && Enabled(s, e) {
      var s' := AdvanceRequest(cfg, s, e.id, e.s1, e.s2);
      AdvanceMoves(cfg, s, e.id, e.s1, e.s2);
      AdvanceReplaces(cfg, s, e.id, e.s1, e.s2);
      AdvanceBirths(cfg, s, e.id, e.s1, e.s2);
      MovesKeepLinear(s, s', e.id, e.s1, e.s2);
      MovesKeepAnswers(s, s', e.id, e.s1, e.s2);
    } else {
      OutsideShrinks(cfg, s, e);
      OutsideKeepsLineage(s, Step(cfg, s, e));
    }
  }

  lemma OutsideKeepsLineage(s: Server, s': Server)
    requires Linear(s) && AnswersDistinct(s) && Shrinks(s, s') && s'.replaced == s.replaced
    ensures Linear(s') && AnswersDistinct(s')
  {
    forall d | Consumed(s, d) ensures Consumed(s', d) {}
    forall i | i in s'.requests ensures Recorded(s', s'.requests[i]) {
      assert i in s.requests ==> Recorded(s, s.requests[i]);
    }
  }

  // Provenance -----------------------------------------------------------------------

  /** A code carries what was consented to: client, redirect URI, challenge, scope and user. */
  predicate Grounds(s: Server, k: Consent, c: AuthCode) {
    && k.query.clientId == Some(c.clientId) && c.clientId in s.store.clients
    && IsFor(s.store.clients[c.clientId], k.query, c.redirectUri)
    && Asks(k.query) && k.query.codeChallenge == Some(c.codeChallenge)
    && c.scope == k.scope && c.userKey == k.user
  }

  ghost predicate Registered(s: Server, c: AuthCode) {
    exists k :: k in s.consents && Grounds(s, k, c)
  }

  /** A request past its checks carries what it was consented for. */
  predicate ConsentedFor(s: Server, k: Consent, req: AuthorizeRequest, user: string) {
    && k.query.clientId == Some(req.client.clientId) && req.client.clientId in s.store.clients
    && s.store.clients[req.client.clientId] == req.client && IsFor(req.client, k.query, req.redirectUri)
    && Asks(k.query) && k.query.codeChallenge == Some(req.codeChallenge)
    && req.scope == k.scope && user == k.user
  }

  /** The digest's root is an issued code with these attributes, whose challenge its redeeming verifier met. */
  predicate Backed(s: Server, d: Digest, client: string, user: string, scope: string) {
    && d in s.rootOf && s.rootOf[d] < |s.issues| && s.rootOf[d] in s.verifiers
    && var code := s.issues[s.rootOf[d]];
    && code.clientId == client && code.userKey == user && code.scope == scope
    && code.codeChallenge == Sha256(s.verifiers[s.rootOf[d]])
  }

  predicate TokenBacked(s: Server, t: TokenRecord) {
    Backed(s, t.tokenHash, t.clientId, t.userKey, t.scope)
  }

  predicate CodeBacked(s: Server, c: AuthCode) {
    c.codeHash in s.rootOf && s.rootOf[c.codeHash] < |s.issues| && s.issues[s.rootOf[c.codeHash]] == c
  }

  ghost predicate RequestBacked(s: Server, l: Local) {
    match l
    case Consented(req, user) => exists k :: k in s.consents && ConsentedFor(s, k, req, user)
    case PuttingCode(_, issue) => Registered(s, issue)
    case CodeTaken(_, _, _, Some(c)) => CodeBacked(s, c)
    case RefreshTaken(_, Some(t)) => TokenBacked(s, t)
    case BearerRead(Some(t)) => TokenBacked(s, t)
    case Authenticated(Some(t)) => TokenBacked(s, t) && t.kind == Access
    case PuttingAccess(g, _, _, _) => Backed(s, g.source, g.clientId, g.userKey, g.scope)
    case PuttingRefresh(g, _, _, _) => Backed(s, g.source, g.clientId, g.userKey, g.scope)
    case _ => true
  }

  ghost predicate ClientsNamed(s: Server) {
    forall id :: id in s.store.clients ==> s.store.clients[id].clientId == id
  }

  ghost predicate IssuesRegistered(s: Server) {
    forall r :: 0 <= r < |s.issues| ==> Registered(s, s.issues[r])
  }

  ghost predicate CodesBacked(s: Server) {
    forall h :: h in s.store.codes ==> CodeBacked(s, s.store.codes[h])
  }

  ghost predicate TokensBacked(s: Server) {
    forall h :: h in s.store.tokens ==> TokenBacked(s, s.store.tokens[h])
  }

  ghost predicate RequestsBacked(s: Server) {
    forall i :: i in s.requests ==> RequestBacked(s, s.requests[i])
  }

  ghost predicate Proven(s: Server) {
    ClientsNamed(s) && IssuesRegistered(s) && CodesBacked(s) && TokensBacked(s) && RequestsBacked(s)
  }

  /** History only grows, and a verifier is recorded only for a challenge it meets. */
  ghost predicate Grows(s: Server, s': Server) {
    && (forall id :: id in s.store.clients ==> id in s'.store.clients && s'.store.clients[id] == s.store.clients[id])
    && s.consents <= s'.consents
    && |s.issues| <= |s'.issues| && (forall r :: 0 <= r < |s.issues| ==> s'.issues[r] == s.issues[r])
    && (forall h :: h in s.rootOf ==> h in s'.rootOf && s'.rootOf[h] == s.rootOf[h])
    && (forall r :: r in s.verifiers ==> r in s'.verifiers)
    && (forall r :: r in s.verifiers && s'.verifiers[r] != s.verifiers[r] ==>
          r < |s.issues| && s.issues[r].codeChallenge == Sha256(s'.verifiers[r]))
  }

  lemma BackingGrows(s: Server, s': Server)
    requires Grows(s, s')
    ensures forall d, client, user, scope :: Backed(s, d, client, user, scope) ==> Backed(s', d, client, user, scope)
    ensures forall c :: CodeBacked(s, c) ==> CodeBacked(s', c)
    ensures forall c :: Registered(s, c) ==> Registered(s', c)
  {
  }

  lemma RequestsStayBacked(s: Server, s': Server, l: Local)
    requires Grows(s, s') && RequestBacked(s, l)
    ensures RequestBacked(s', l)
  {
    BackingGrows(s, s');
  }

  lemma AdvanceGrows(cfg: Config, s: Server, i: nat, s1: string, s2: string)
    requires Ready(s, i, s1, s2) && RequestBacked(s, s.requests[i])
    ensures Grows(s, AdvanceRequest(cfg, s, i, s1, s2))
  {
  }

  lemma GrantBacked(cfg: Config, s: Server, i: nat, s1: string, s2: string)
    requires Ready(s, i, s1, s2) && RequestBacked(s, s.requests[i])
    requires s.requests[i].CodeTaken? || s.requests[i].RefreshTaken?
    ensures var s' := AdvanceRequest(cfg, s, i, s1, s2); RequestBacked(s', s'.requests[i])
  {
  }

  lemma TakerBacked(cfg: Config, s: Server, i: nat, s1: string, s2: string)
    requires Ready(s, i, s1, s2) && CodesBacked(s) && TokensBacked(s)
    requires s.requests[i].TakingCode? || s.requests[i].TakingRefresh? || s.requests[i].ReadingBearer?
    ensures var s' := AdvanceRequest(cfg, s, i, s1, s2); RequestBacked(s', s'.requests[i])
  {
    AdvanceGrows(cfg, s, i, s1, s2);
    BackingGrows(s, AdvanceRequest(cfg, s, i, s1, s2));
  }

  lemma AuthorizerBacked(cfg: Config, s: Server, i: nat, s1: string, s2: string)
    requires Ready(s, i, s1, s2) && ClientsNamed(s) && RequestBacked(s, s.requests[i])
    requires s.requests[i].Authorizing? || s.requests[i].Consented? || s.requests[i].BearerRead?
    ensures var s' := AdvanceRequest(cfg, s, i, s1, s2); RequestBacked(s', s'.requests[i])
  {
  }

  lemma PutterBacked(cfg: Config, s: Server, i: nat, s1: string, s2: string)
    requires Ready(s, i, s1, s2) && RequestBacked(s, s.requests[i])
    requires s.requests[i].PuttingAccess?
    ensures var s' := AdvanceRequest(cfg, s, i, s1, s2); RequestBacked(s', s'.requests[i])
  {
    AdvanceGrows(cfg, s, i, s1, s2);
    BackingGrows(s, AdvanceRequest(cfg, s, i, s1, s2));
  }

  /** The moves whose outcome nothing has to back. */
  lemma EnderBacked(cfg: Config, s: Server, i: nat, s1: string, s2: string)
    requires Ready(s, i, s1, s2) && RequestBacked(s, s.requests[i])
    requires var l := s.requests[i];
      l.PuttingCode? || l.PuttingRefresh? || l.TokenStart? || l.Issued? || l.Refused? || l.Answered? || l.Authenticated?
    ensures var s' := AdvanceRequest(cfg, s, i, s1, s2); RequestBacked(s', s'.requests[i])
  {
  }

  /** The mover's next state is backed. */
  ghost predicate Lands(cfg: Config, s: Server, i: nat, s1: string, s2: string)
    requires i in s.requests
  {
    var s' := AdvanceRequest(cfg, s, i, s1, s2); RequestBacked(s', s'.requests[i])
  }

  lemma MoverBacked(cfg: Config, s: Server, i: nat, s1: string, s2: string)
    requires Ready(s, i, s1, s2) && ClientsNamed(s) && CodesBacked(s) && TokensBacked(s)
    requires RequestBacked(s, s.requests[i])
    ensures Lands(cfg, s, i, s1, s2)
  {
    match s.requests[i]
    case CodeTaken(_, _, _, _) => GrantBacked(cfg, s, i, s1, s2);
    case RefreshTaken(_, _) => GrantBacked(cfg, s, i, s1, s2);
    case TakingCode(_, _, _, _) => TakerBacked(cfg, s, i, s1, s2);
    case TakingRefresh(_, _) => TakerBacked(cfg, s, i, s1, s2);
    case ReadingBearer(_) => TakerBacked(cfg, s, i, s1, s2);
    case Authorizing(_, _) => AuthorizerBacked(cfg, s, i, s1, s2);
    case Consented(_, _) => AuthorizerBacked(cfg, s, i, s1, s2);
    case BearerRead(_) => AuthorizerBacked(cfg, s, i, s1, s2);
    case PuttingAccess(_, _, _, _) => PutterBacked(cfg, s, i, s1, s2);
    case _ => EnderBacked(cfg, s, i, s1, s2);
  }

  lemma RequestsStay(cfg: Config, s: Server, i: nat, s1: string, s2: string)
    requires Ready(s, i, s1, s2) && RequestsBacked(s) && Lands(cfg, s, i, s1, s2)
    requires Grows(s, AdvanceRequest(cfg, s, i, s1, s2))
    ensures RequestsBacked(AdvanceRequest(cfg, s, i, s1, s2))
  {
    var s' := AdvanceRequest(cfg, s, i, s1, s2);
    assert s'.requests == s.requests[i := s'.requests[i]];
    forall j | j in s'.requests && j != i ensures RequestBacked(s', s'.requests[j]) {
      RequestsStayBacked(s, s', s.requests[j]);
    }
  }

  lemma NewCodeBacked(cfg: Config, s: Server, i: nat, s1: string, s2: string)
    requires Ready(s, i, s1, s2) && RequestBacked(s, s.requests[i]) && s.requests[i].PuttingCode?
    ensures var s' := AdvanceRequest(cfg, s, i, s1, s2);
      var issue := s.requests[i].issue;
      && s'.issues == s.issues + [issue] && Registered(s', issue) && CodeBacked(s', issue)
      && s'.store.codes == s.store.codes[issue.codeHash := issue]
  {
  }

  lemma OldCodes(l: Local, st: Stored)
    requires !l.PuttingCode?
    ensures var st' := StoreCall(l, st); forall h :: h in st'.codes ==> h in st.codes && st'.codes[h] == st.codes[h]
  {
  }

  lemma OldIssues(cfg: Config, s: Server, i: nat, s1: string, s2: string)
    requires i in s.requests && !s.requests[i].PuttingCode?
    ensures var s' := AdvanceRequest(cfg, s, i, s1, s2);
      s'.issues == s.issues && s'.store == StoreCall(s.requests[i], s.store)
  {
  }

  lemma CodesStayBacked(cfg: Config, s: Server, i: nat, s1: string, s2: string)
    requires Ready(s, i, s1, s2) && RequestBacked(s, s.requests[i]) && IssuesRegistered(s) && CodesBacked(s)
    ensures var s' := AdvanceRequest(cfg, s, i, s1, s2); IssuesRegistered(s') && CodesBacked(s')
  {
    AdvanceGrows(cfg, s, i, s1, s2);
    BackingGrows(s, AdvanceRequest(cfg, s, i, s1, s2));
    if s.requests[i].PuttingCode? {
      NewCodeBacked(cfg, s, i, s1, s2);
    } else {
      OldIssues(cfg, s, i, s1, s2);
      OldCodes(s.requests[i], s.store);
    }
  }

  lemma NewTokenBacked(cfg: Config, s: Server, i: nat, s1: string, s2: string)
    requires Ready(s, i, s1, s2) && RequestBacked(s, s.requests[i])
    requires s.requests[i].PuttingAccess? || s.requests[i].PuttingRefresh?
    ensures var s' := AdvanceRequest(cfg, s, i, s1, s2);
      var h := Sha256(if s.requests[i].PuttingAccess? then s.requests[i].access else s.requests[i].refresh);
      && h in s'.store.tokens && TokenBacked(s', s'.store.tokens[h])
      && (forall h' :: h' in s'.store.tokens && h' != h ==>
         h' in s.store.tokens && s'.store.tokens[h'] == s.store.tokens[h'])
  {
  }

  lemma OldTokens(l: Local, st: Stored)
    requires !l.PuttingAccess? && !l.PuttingRefresh?
    ensures var st' := StoreCall(l, st); forall h :: h in st'.tokens ==> h in st.tokens && st'.tokens[h] == st.tokens[h]
  {
  }

  lemma TokensStayBacked(cfg: Config, s: Server, i: nat, s1: string, s2: string)
    requires Ready(s, i, s1, s2) && RequestBacked(s, s.requests[i]) && TokensBacked(s)
    ensures TokensBacked(AdvanceRequest(cfg, s, i, s1, s2))
  {
    var s' := AdvanceRequest(cfg, s, i, s1, s2);
    AdvanceGrows(cfg, s, i, s1, s2);
    BackingGrows(s, s');
    if s.requests[i].PuttingAccess? || s.requests[i].PuttingRefresh? {
      NewTokenBacked(cfg, s, i, s1, s2);
    } else {
      OldTokens(s.requests[i], s.store);
      assert s'.store == StoreCall(s.requests[i], s.store);
    }
  }

  lemma AdvanceKeepsProven(cfg: Config, s: Server, i: nat, s1: string, s2: string)
    requires Ready(s, i, s1, s2) && Proven(s)
    ensures Proven(AdvanceRequest(cfg, s, i, s1, s2))
  {
    assert RequestBacked(s, s.requests[i]);
    ClientsStay(cfg, s, i, s1, s2);
    CodesStayBacked(cfg, s, i, s1, s2);
    TokensStayBacked(cfg, s, i, s1, s2);
    AdvanceGrows(cfg, s, i, s1, s2);
    MoverBacked(cfg, s, i, s1, s2);
    RequestsStay(cfg, s, i, s1, s2);
  }

  lemma ClientsStay(cfg: Config, s: Server, i: nat, s1: string, s2: string)
    requires i in s.requests
    ensures AdvanceRequest(cfg, s, i, s1, s2).store.clients == s.store.clients
  {
  }

  lemma OutsideGrows(cfg: Config, s: Server, e: Event)
    requires (!e.Advance? || !Enabled(s, e)) && ClientsNamed(s)
    ensures var s' := Step(cfg, s, e); Grows(s, s') && s'.replaced == s.replaced && ClientsNamed(s')
  {
  }

  lemma ShrinkKeepsProven(s: Server, s': Server)
    requires Proven(s) && Shrinks(s, s') && Grows(s, s') && ClientsNamed(s')
    ensures Proven(s')
  {
    BackingGrows(s, s');
    forall i | i in s'.requests ensures RequestBacked(s', s'.requests[i]) {
      if i in s.requests { RequestsStayBacked(s, s', s.requests[i]); }
    }
  }

  // Whole runs -------------------------------------------------------------------------

  ghost predicate Safe(s: Server) {
    Fresh(s) && OneHolder(s) && Linear(s) && AnswersDistinct(s) && Proven(s)
  }

  lemma SafeKept(cfg: Config, s: Server, e: Event)
    requires Safe(s)
    ensures Safe(Step(cfg, s, e))
  {
    FreshKept(cfg, s, e);
    OneHolderKept(cfg, s, e);
    LineageKept(cfg, s, e);
    if e.Advance? && Enabled(s, e) {
      AdvanceKeepsProven(cfg, s, e.id, e.s1, e.s2);
    } else {
      OutsideShrinks(cfg, s, e);
      OutsideGrows(cfg, s, e);
      ShrinkKeepsProven(s, Step(cfg, s, e));
    }
  }

  lemma {:induction false} RunsAreSafe(cfg: Config, s: Server, events: seq<Event>)
    requires Safe(s)
    ensures Safe(Run(cfg, s, events))
    decreases |events|
  {
    if events != [] {
      SafeKept(cfg, s, events[0]);
      RunsAreSafe(cfg, Step(cfg, s, events[0]), events[1..]);
    }
  }

  ghost function Holders(s: Server, root: nat): iset<Holder> {
    iset x | Holds(s, x, root)
  }

  /**
   * In every interleaving, an issued code is represented at most once: by the
   * pending code, by one request that took it or a descendant refresh token, or
   * by one stored descendant refresh token.
   */
  lemma AtMostOneHolderPerCode(cfg: Config, events: seq<Event>, root: nat)
    ensures forall x, y ::
              x in Holders(Run(cfg, INIT, events), root) && y in Holders(Run(cfg, INIT, events), root) ==> x == y
  {
    RunsAreSafe(cfg, INIT, events);
  }

  /** No two successful token requests, in any run, were granted by the same code or the same refresh token. */
  lemma OneAnswerPerSecret(cfg: Config, events: seq<Event>, i: nat, j: nat)
    requires var s := Run(cfg, INIT, events);
      i in s.requests && j in s.requests && i != j && s.requests[i].Answered? && s.requests[j].Answered?
    ensures var s := Run(cfg, INIT, events); s.requests[i].source != s.requests[j].source
  {
    var s := Run(cfg, INIT, events);
    RunsAreSafe(cfg, INIT, events);
    assert Recorded(s, s.requests[i]) && Recorded(s, s.requests[j]);
  }

  /**
   * Every stored refresh token replaced one row of its own root, which is gone for
   * good, and no two refresh tokens, stored or spent, replaced the same row.
   */
  lemma ChainsAreLinear(cfg: Config, events: seq<Event>)
    ensures var s := Run(cfg, INIT, events);
      && (forall h :: h in s.store.tokens && s.store.tokens[h].kind == Refresh ==> h in s.replaced)
      && (forall d :: d in s.replaced ==> Consumed(s, s.replaced[d]) && RootOf(s, d) == RootOf(s, s.replaced[d]))
      && (forall d, d' :: d in s.replaced && d' in s.replaced && s.replaced[d] == s.replaced[d'] ==> d == d')
  {
    RunsAreSafe(cfg, INIT, events);
  }

  lemma SpentStep(cfg: Config, s: Server, e: Event, root: nat)
    requires Safe(s) && root < |s.issues| && (forall x :: !Holds(s, x, root))
    ensures root < |Step(cfg, s, e).issues| && (forall x :: !Holds(Step(cfg, s, e), x, root))
  {
    if e.Advance? && Enabled(s, e) {
      AdvanceMoves(cfg, s, e.id, e.s1, e.s2);
      AdvanceBirths(cfg, s, e.id, e.s1, e.s2);
      SpentMove(s, AdvanceRequest(cfg, s, e.id, e.s1, e.s2), e.id, e.s1, e.s2, root);
    } else {
      OutsideShrinks(cfg, s, e);
      ShrinkHolds(s, Step(cfg, s, e));
    }
  }

  lemma SpentMove(s: Server, s': Server, i: nat, s1: string, s2: string, root: nat)
    requires Fresh(s) && Ready(s, i, s1, s2) && Moves(s, s', i, s1, s2) && Births(s, s', s.requests[i], s'.requests[i])
    requires root < |s.issues| && (forall x :: !Holds(s, x, root))
    ensures forall x :: !Holds(s', x, root)
  {
    forall x | Holds(s', x, root) ensures false {
      PriorHolds(s, s', i, s1, s2, x, root);
    }
  }

  /**
   * Once nothing represents an issued code, because a failed or an abandoned
   * exchange consumed it, nothing ever will again.
   */
  lemma {:induction false} SpentForGood(cfg: Config, s: Server, events: seq<Event>, root: nat)
    requires Safe(s) && root < |s.issues| && (forall x :: !Holds(s, x, root))
    ensures forall x :: !Holds(Run(cfg, s, events), x, root)
    decreases |events|
  {
    if events != [] {
      SafeKept(cfg, s, events[0]);
      SpentStep(cfg, s, events[0], root);
      SpentForGood(cfg, Step(cfg, s, events[0]), events[1..], root);
    }
  }

  /** The authorization requests that arrived, and the users who sent them. */
  function Arrived(events: seq<Event>): set<(AuthorizeQuery, string)> {
    set e | e in events && e.Arrive? && e.request.Authorizing? :: (e.request.query, e.request.user)
  }

  /** Every authorization under way and every consent is for a request among `heard`, and for the server's scope. */
  ghost predicate Heard(cfg: Config, s: Server, heard: set<(AuthorizeQuery, string)>) {
    && (forall i :: i in s.requests && s.requests[i].Authorizing? ==>
       (s.requests[i].query, s.requests[i].user) in heard)
    && (forall k :: k in s.consents ==> (k.query, k.user) in heard && k.scope == cfg.scope)
  }

  lemma AdvanceConsents(cfg: Config, s: Server, i: nat, s1: string, s2: string)
    requires i in s.requests
    ensures var l, s' := s.requests[i], AdvanceRequest(cfg, s, i, s1, s2);
      && s'.requests == s.requests[i := Continue(cfg, l, s.store, s.now, s1, s2)]
      && (forall k :: k in s'.consents && k !in s.consents ==>
         l.Authorizing? && k == Consent(l.query, l.user, cfg.scope))
  {
  }

  lemma NoneStartsOver(cfg: Config, l: Local, st: Stored, now: int, s1: string, s2: string)
    ensures !Continue(cfg, l, st, now, s1, s2).Authorizing?
  {
  }

  lemma StepHeard(cfg: Config, s: Server, e: Event, heard: set<(AuthorizeQuery, string)>)
    requires Heard(cfg, s, heard)
    ensures Heard(cfg, Step(cfg, s, e), heard + Arrived([e]))
  {
    if e.Advance? && Enabled(s, e) {
      AdvanceConsents(cfg, s, e.id, e.s1, e.s2);
      NoneStartsOver(cfg, s.requests[e.id], s.store, s.now, e.s1, e.s2);
    } else if e.Arrive? && Enabled(s, e) {
      if e.request.Authorizing? { assert e in [e] && (e.request.query, e.request.user) in Arrived([e]); }
    } else {
      NothingArrives(cfg, s, e);
    }
  }

  lemma NothingArrives(cfg: Config, s: Server, e: Event)
    requires !Enabled(s, e) || (!e.Advance? && !e.Arrive?)
    ensures Step(cfg, s, e).requests == s.requests && Step(cfg, s, e).consents == s.consents
  {
  }

  lemma {:induction false} RunHeard(cfg: Config, s: Server, events: seq<Event>, heard: set<(AuthorizeQuery, string)>)
    requires Heard(cfg, s, heard)
    ensures Heard(cfg, Run(cfg, s, events), heard + Arrived(events))
    decreases |events|
  {
    if events != [] {
      StepHeard(cfg, s, events[0], heard);
      RunHeard(cfg, Step(cfg, s, events[0]), events[1..], heard + Arrived([events[0]]));
      assert events == [events[0]] + events[1..];
      assert Arrived(events) == Arrived([events[0]]) + Arrived(events[1..]);
    }
  }

  /**
   * Every code ever issued stands for one authorization request that arrived
   * from its user and passed the checks: it carries that client, its redirect URI,
   * that challenge, the server's scope and that user.
   */
  lemma CodesTraceToRequests(cfg: Config, events: seq<Event>, n: nat) returns (k: Consent)
    requires n < |Run(cfg, INIT, events).issues|
    ensures var s := Run(cfg, INIT, events);
      var code := s.issues[n];
      && (k.query, k.user) in Arrived(events)
      && code.userKey == k.user && code.scope == cfg.scope
      && k.query.clientId == Some(code.clientId) && code.clientId in s.store.clients
      && Asks(k.query) && k.query.codeChallenge == Some(code.codeChallenge)
      && IsFor(s.store.clients[code.clientId], k.query, code.redirectUri)
  {
    RunsAreSafe(cfg, INIT, events);
    RunHeard(cfg, INIT, events, {});
    var s := Run(cfg, INIT, events);
    assert Registered(s, s.issues[n]);
    k :| k in s.consents && Grounds(s, k, s.issues[n]);
  }

  /**
   * Every stored token traces to one authorization request that arrived: it
   * carries that request's client and user, and the server's scope. The code
   * between them, at the token's root, was issued for that client's redirect URI
   * and the request's challenge, which is the digest of the verifier it was
   * redeemed with.
   */
  lemma TokensTraceToConsent(cfg: Config, events: seq<Event>, h: Digest) returns (k: Consent)
    requires h in Run(cfg, INIT, events).store.tokens
    ensures var s := Run(cfg, INIT, events);
      && h in s.rootOf && s.rootOf[h] < |s.issues| && s.rootOf[h] in s.verifiers
      && var token, code := s.store.tokens[h], s.issues[s.rootOf[h]];
      && (k.query, k.user) in Arrived(events) && Asks(k.query)
      && token.userKey == code.userKey == k.user && token.scope == code.scope == cfg.scope
      && token.clientId == code.clientId && k.query.clientId == Some(token.clientId)
      && code.clientId in s.store.clients && IsFor(s.store.clients[code.clientId], k.query, code.redirectUri)
      && k.query.codeChallenge == Some(code.codeChallenge)
      && code.codeChallenge == Sha256(s.verifiers[s.rootOf[h]])
  {
    var s := Run(cfg, INIT, events);
    RunsAreSafe(cfg, INIT, events);
    assert TokenBacked(s, s.store.tokens[h]) && s.store.tokens[h].tokenHash == h;
    k := CodesTraceToRequests(cfg, events, s.rootOf[h]);
  }

  /** A bearer check passes only for an unexpired access token that traces to consent. */
  lemma BearerChecksAreSound(cfg: Config, events: seq<Event>, i: nat, s1: string, s2: string)
    requires var s := Run(cfg, INIT, events);
      && Enabled(s, Advance(i, s1, s2)) && s.requests[i].BearerRead?
    ensures var s := Run(cfg, INIT, events);
      var s' := Step(cfg, s, Advance(i, s1, s2));
      && s'.requests[i].Authenticated?
      && var passed := s'.requests[i].record;
      && (passed.Some? <==>
         s.requests[i].record.Some? && s.requests[i].record.value.kind == Access
           && s.requests[i].record.value.expiresAt >= s.now)
      && (passed.Some? ==> passed == s.requests[i].record && TokenBacked(s, passed.value))
  {
    var s := Run(cfg, INIT, events);
    RunsAreSafe(cfg, INIT, events);
    assert RequestBacked(s, s.requests[i]);
  }
}
