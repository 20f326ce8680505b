/** What holds in every state of every run of `OAuthProtocol`. */
module OAuthSafety {
  import opened Prelude
  import opened OAuthStore
  import opened OAuthProtocol

  /** Secrets a request has drawn but not stored yet. */
  function Undelivered(l: Local): set<string> {
    match l
    case PuttingCode(code, _) => {code}
    case PuttingAccess(_, access, refresh, _) => {access, refresh}
    case PuttingRefresh(_, _, refresh, _) => {refresh}
    case _ => {}
  }

  /** The code or refresh token a request has taken and not yet replaced by the next one. */
  function Taken(l: Local): Option<Digest> {
    match l
    case CodeTaken(_, _, _, Some(c)) => Some(c.codeHash)
    case RefreshTaken(_, Some(t)) => if t.kind == Refresh then Some(t.tokenHash) else None
    case PuttingAccess(g, _, _, _) => Some(g.source)
    case PuttingRefresh(g, _, _, _) => Some(g.source)
    case _ => None
  }

  // Fresh secrets -------------------------------------------------------------

  ghost predicate RowsKeyed(s: Server) {
    && (forall h :: h in s.store.codes ==> s.store.codes[h].codeHash == h && h in s.rootOf)
    && (forall h :: h in s.store.tokens ==> s.store.tokens[h].tokenHash == h && h in s.rootOf)
    && s.store.codes.Keys !! s.store.tokens.Keys
    && (forall h :: h in s.rootOf ==> h.Sha256? && h.preimage in s.drawn && s.rootOf[h] < |s.issues|)
  }

  predicate Shaped(l: Local) {
    && (l.PuttingAccess? ==> l.access != l.refresh)
    && (l.PuttingCode? ==> l.issue.codeHash == Sha256(l.code))
  }

  ghost predicate RequestFresh(s: Server, l: Local) {
    && Shaped(l)
    && (forall x :: x in Undelivered(l) ==> x in s.drawn && Sha256(x) !in s.rootOf)
    && (Taken(l).Some? ==>
       Taken(l).value in s.rootOf && Taken(l).value !in s.store.codes && Taken(l).value !in s.store.tokens)
  }

  ghost predicate Fresh(s: Server) {
    && RowsKeyed(s)
    && (forall i :: i in s.requests ==> RequestFresh(s, s.requests[i]))
    && (forall i, j :: i in s.requests && j in s.requests && i != j ==>
       Undelivered(s.requests[i]) !! Undelivered(s.requests[j]))
  }

  // What one advance can do --------------------------------------------------------

  /** `d` names a row `s` stores and `s'` does not. */
  predicate TakenNow(s: Server, s': Server, d: Digest) {
    || (d in s.store.codes && d !in s'.store.codes)
    || (d in s.store.tokens && s.store.tokens[d].kind == Refresh && d !in s'.store.tokens)
  }

  ghost predicate RowsMove(s: Server, s': Server, l: Local, l': Local) {
    && (forall h :: h in s.rootOf ==> h in s'.rootOf && s'.rootOf[h] == s.rootOf[h])
    && (forall h :: h in s'.rootOf && h !in s.rootOf ==>
          h.Sha256? && h.preimage in Undelivered(l) && h.preimage !in Undelivered(l') && s'.rootOf[h] < |s'.issues|)
    && |s.issues| <= |s'.issues|
    && (forall h :: h in s'.store.codes ==>
       s'.store.codes[h].codeHash == h && h in s'.rootOf && (h in s.store.codes || h !in s.rootOf))
    && (forall h :: h in s'.store.tokens ==>
       s'.store.tokens[h].tokenHash == h && h in s'.rootOf && (h in s.store.tokens || h !in s.rootOf))
    && (forall h :: h in s'.store.codes && h in s'.store.tokens ==> h in s.store.codes && h in s.store.tokens)
    && (forall h :: h in s.store.tokens && h in s'.store.tokens ==> s'.store.tokens[h] == s.store.tokens[h])
  }

  /** The part of `Step` that the safety arguments need, for the request `i` moving from `s` to `s'`. */
  ghost predicate Moves(s: Server, s': Server, i: nat, s1: string, s2: string) {
    && i in s.requests && i in s'.requests
    && var l, l' := s.requests[i], s'.requests[i];
    && s'.requests == s.requests[i := l']
    && s'.drawn == s.drawn + Draws(l, s1, s2)
    && RowsMove(s, s', l, l')
    && Undelivered(l') <= Undelivered(l) + Draws(l, s1, s2)
    && (Taken(l').Some? ==> Taken(l') == Taken(l) || (Taken(l).None? && TakenNow(s, s', Taken(l').value)))
  }

  /** `i` may advance with the secrets `s1` and `s2`, and its own state is sound. */
  ghost predicate Ready(s: Server, i: nat, s1: string, s2: string) {
    && i in s.requests && Unused(s, s.requests[i], s1, s2)
    && RowsKeyed(s) && RequestFresh(s, s.requests[i])
  }

  lemma TokenPutRows(s: Server, s': Server, l: Local, l': Local, x: string)
    requires RowsKeyed(s) && x in Undelivered(l) && x !in Undelivered(l') && Sha256(x) !in s.rootOf
    requires Sha256(x) in s'.rootOf && s'.rootOf[Sha256(x)] < |s.issues|
    requires s'.rootOf == s.rootOf[Sha256(x) := s'.rootOf[Sha256(x)]]
    requires Sha256(x) in s'.store.tokens && s'.store.tokens == s.store.tokens[Sha256(x) := s'.store.tokens[Sha256(x)]]
    requires s'.store.codes == s.store.codes && s'.issues == s.issues
    requires s'.store.tokens[Sha256(x)].tokenHash == Sha256(x)
    ensures RowsMove(s, s', l, l')
  {
  }

  lemma CodePutMoves(cfg: Config, s: Server, i: nat, s1: string, s2: string)
    requires Ready(s, i, s1, s2) && s.requests[i].PuttingCode?
    ensures Moves(s, AdvanceRequest(cfg, s, i, s1, s2), i, s1, s2)
  {
  }

  lemma AccessPutMoves(cfg: Config, s: Server, i: nat, s1: string, s2: string)
    requires Ready(s, i, s1, s2) && s.requests[i].PuttingAccess?
    ensures Moves(s, AdvanceRequest(cfg, s, i, s1, s2), i, s1, s2)
  {
    var s' := AdvanceRequest(cfg, s, i, s1, s2);
    TokenPutRows(s, s', s.requests[i], s'.requests[i], s.requests[i].access);
  }

  lemma RefreshPutMoves(cfg: Config, s: Server, i: nat, s1: string, s2: string)
    requires Ready(s, i, s1, s2) && s.requests[i].PuttingRefresh?
    ensures Moves(s, AdvanceRequest(cfg, s, i, s1, s2), i, s1, s2)
  {
    var s' := AdvanceRequest(cfg, s, i, s1, s2);
    TokenPutRows(s, s', s.requests[i], s'.requests[i], s.requests[i].refresh);
  }

  lemma TakeMoves(cfg: Config, s: Server, i: nat, s1: string, s2: string)
    requires Ready(s, i, s1, s2) && (s.requests[i].TakingCode? || s.requests[i].TakingRefresh?)
    ensures Moves(s, AdvanceRequest(cfg, s, i, s1, s2), i, s1, s2)
  {
  }

  lemma CodeCheckMoves(cfg: Config, s: Server, i: nat, s1: string, s2: string)
    requires Ready(s, i, s1, s2) && s.requests[i].CodeTaken?
    ensures Moves(s, AdvanceRequest(cfg, s, i, s1, s2), i, s1, s2)
  {
    var s' := AdvanceRequest(cfg, s, i, s1, s2);
    var l, l' := s.requests[i], s'.requests[i];
    CheckContinues(cfg, l, s.store, s.now, s1, s2);
    RowsStay(s, s', l, l');
  }

  lemma RowsStay(s: Server, s': Server, l: Local, l': Local)
    requires RowsKeyed(s) && s'.store == s.store && s'.rootOf == s.rootOf && s'.issues == s.issues
    ensures RowsMove(s, s', l, l')
  {
  }

  lemma CheckContinues(cfg: Config, l: Local, st: Stored, now: int, s1: string, s2: string)
    requires l.CodeTaken?
    ensures var l' := Continue(cfg, l, st, now, s1, s2);
      && Undelivered(l') <= {s1, s2}
      && (Taken(l').Some? ==> Taken(l') == Taken(l))
  {
  }

  lemma RefreshCheckMoves(cfg: Config, s: Server, i: nat, s1: string, s2: string)
    requires Ready(s, i, s1, s2) && s.requests[i].RefreshTaken?
    ensures Moves(s, AdvanceRequest(cfg, s, i, s1, s2), i, s1, s2)
  {
  }

  lemma AuthorizingMoves(cfg: Config, s: Server, i: nat, s1: string, s2: string)
    requires Ready(s, i, s1, s2) && s.requests[i].Authorizing?
    ensures Moves(s, AdvanceRequest(cfg, s, i, s1, s2), i, s1, s2)
  {
    var s' := AdvanceRequest(cfg, s, i, s1, s2);
    assert Taken(s'.requests[i]).None? && Undelivered(s'.requests[i]) == {};
    RowsStay(s, s', s.requests[i], s'.requests[i]);
  }

  predicate Quiet(l: Local) {
    && !l.Authorizing? && !l.PuttingCode? && !l.PuttingAccess? && !l.PuttingRefresh? && !l.TakingCode?
       && !l.TakingRefresh?
    && !l.CodeTaken? && !l.RefreshTaken?
  }

  lemma QuietMoves(cfg: Config, s: Server, i: nat, s1: string, s2: string)
    requires Ready(s, i, s1, s2) && Quiet(s.requests[i])
    ensures Moves(s, AdvanceRequest(cfg, s, i, s1, s2), i, s1, s2)
  {
  }

  lemma AdvanceMoves(cfg: Config, s: Server, i: nat, s1: string, s2: string)
    requires Ready(s, i, s1, s2)
    ensures Moves(s, AdvanceRequest(cfg, s, i, s1, s2), i, s1, s2)
  {
    var l := s.requests[i];
    if l.PuttingCode? { CodePutMoves(cfg, s, i, s1, s2); }
    else if l.PuttingAccess? { AccessPutMoves(cfg, s, i, s1, s2); }
    else if l.PuttingRefresh? { RefreshPutMoves(cfg, s, i, s1, s2); }
    else if l.TakingCode? || l.TakingRefresh? { TakeMoves(cfg, s, i, s1, s2); }
    else if l.CodeTaken? { CodeCheckMoves(cfg, s, i, s1, s2); }
    else if l.RefreshTaken? { RefreshCheckMoves(cfg, s, i, s1, s2); }
    else if l.Authorizing? { AuthorizingMoves(cfg, s, i, s1, s2); }
    else { QuietMoves(cfg, s, i, s1, s2); }
  }

  lemma MovesKeepOther(s: Server, s': Server, i: nat, s1: string, s2: string, j: nat)
    requires Fresh(s) && Ready(s, i, s1, s2) && Moves(s, s', i, s1, s2)
    requires j in s.requests && j != i
    ensures RequestFresh(s', s.requests[j])
    ensures Undelivered(s.requests[j]) !! Undelivered(s'.requests[i])
  {
    assert RequestFresh(s, s.requests[j]);
    assert Undelivered(s.requests[j]) !! Undelivered(s.requests[i]);
  }

  lemma MovesKeepMover(s: Server, s': Server, i: nat, s1: string, s2: string)
    requires Ready(s, i, s1, s2) && Moves(s, s', i, s1, s2) && Shaped(s'.requests[i])
    ensures RequestFresh(s', s'.requests[i])
  {
  }

  lemma MovesKeepRows(s: Server, s': Server, i: nat, s1: string, s2: string)
    requires Ready(s, i, s1, s2) && Moves(s, s', i, s1, s2)
    ensures RowsKeyed(s')
  {
  }

  lemma MovesKeepFresh(s: Server, s': Server, i: nat, s1: string, s2: string)
    requires Fresh(s) && Ready(s, i, s1, s2) && Moves(s, s', i, s1, s2) && Shaped(s'.requests[i])
    ensures Fresh(s')
  {
    MovesKeepMover(s, s', i, s1, s2);
    MovesKeepRows(s, s', i, s1, s2);
    forall j | j in s.requests && j != i { MovesKeepOther(s, s', i, s1, s2, j); }
  }

  lemma ContinueShaped(cfg: Config, l: Local, st: Stored, now: int, s1: string, s2: string)
    requires Shaped(l) && (Drawing(l) ==> s1 != s2)
    ensures Shaped(Continue(cfg, l, st, now, s1, s2))
  {
  }

  lemma FreshKept(cfg: Config, s: Server, e: Event)
    requires Fresh(s)
    ensures Fresh(Step(cfg, s, e))
  {
    if e.Advance? && Enabled(s, e) {
      AdvanceMoves(cfg, s, e.id, e.s1, e.s2);
      ContinueShaped(cfg, s.requests[e.id], s.store, s.now, e.s1, e.s2);
      MovesKeepFresh(s, AdvanceRequest(cfg, s, e.id, e.s1, e.s2), e.id, e.s1, e.s2);
    } else {
      OutsideShrinks(cfg, s, e);
      ShrinkKeepsFresh(s, Step(cfg, s, e));
    }
  }

  /** Events other than a request's own move only remove rows and add first moves. */
  ghost predicate Shrinks(s: Server, s': Server) {
    && s'.rootOf == s.rootOf && s'.drawn == s.drawn && s'.issues == s.issues
    && (forall h :: h in s'.store.codes ==> h in s.store.codes && s'.store.codes[h] == s.store.codes[h])
    && (forall h :: h in s'.store.tokens ==> h in s.store.tokens && s'.store.tokens[h] == s.store.tokens[h])
    && (forall i :: i in s'.requests ==>
       (i in s.requests && s'.requests[i] == s.requests[i]) || Arrival(s'.requests[i]))
  }

  lemma OutsideShrinks(cfg: Config, s: Server, e: Event)
    requires !e.Advance? || !Enabled(s, e)
    ensures Shrinks(s, Step(cfg, s, e))
  {
  }

  lemma ShrinkKeepsFresh(s: Server, s': Server)
    requires Fresh(s) && Shrinks(s, s')
    ensures Fresh(s')
  {
    forall i | i in s'.requests
      ensures RequestFresh(s', s'.requests[i])
    {
      assert i in s.requests ==> RequestFresh(s, s.requests[i]);
    }
  }

  // One holder per issued code ---------------------------------------------------

  /** What can still turn into tokens for an issued code. */
  datatype Holder = PendingCode(hash: Digest) | InFlight(id: nat) | LiveRefresh(hash: Digest)

  predicate Holds(s: Server, x: Holder, root: nat) {
    match x
    case PendingCode(h) => h in s.store.codes && RootOf(s, h) == root
    case InFlight(i) => i in s.requests && Taken(s.requests[i]).Some? && RootOf(s, Taken(s.requests[i]).value) == root
    case LiveRefresh(h) => h in s.store.tokens && s.store.tokens[h].kind == Refresh && RootOf(s, h) == root
  }

  ghost predicate OneHolder(s: Server) {
    forall x, y, root :: Holds(s, x, root) && Holds(s, y, root) ==> x == y
  }

  /** Which rows are born, with which root, when a request moves. */
  ghost predicate Births(s: Server, s': Server, l: Local, l': Local) {
    && (forall h :: h in s'.store.codes && h !in s.store.codes ==>
          l.PuttingCode? && h == Sha256(l.code) && RootOf(s', h) == |s.issues|)
    && (forall h :: h in s'.store.tokens && h !in s.store.tokens && s'.store.tokens[h].kind == Refresh ==>
          l.PuttingRefresh? && h == Sha256(l.refresh) && RootOf(s', h) == RootOf(s, l.grant.source))
    && (l.PuttingRefresh? || l.PuttingCode? ==> Taken(l').None?)
  }

  lemma StoreCallBirths(l: Local, st: Stored)
    ensures var st' := StoreCall(l, st);
      && (forall h :: h in st'.codes && h !in st.codes ==> l.PuttingCode? && h == l.issue.codeHash)
      && (forall h :: h in st'.tokens && h !in st.tokens && st'.tokens[h].kind == Refresh ==>
         l.PuttingRefresh? && h == Sha256(l.refresh))
  {
  }

  lemma AdvanceBirths(cfg: Config, s: Server, i: nat, s1: string, s2: string)
    requires Ready(s, i, s1, s2)
    ensures var s' := AdvanceRequest(cfg, s, i, s1, s2); Births(s, s', s.requests[i], s'.requests[i])
  {
    StoreCallBirths(s.requests[i], s.store);
    assert AdvanceRequest(cfg, s, i, s1, s2).store == StoreCall(s.requests[i], s.store);
  }

  /** The holder in `s` that a holder in `s'` was before request `i` moved. */
  function Prior(s: Server, s': Server, i: nat, x: Holder): Holder
    requires i in s.requests && i in s'.requests
  {
    var taken, taken' := Taken(s.requests[i]), Taken(s'.requests[i]);
    if x == InFlight(i) && taken.None? && taken'.Some? then
      if taken'.value in s.store.codes && taken'.value !in s'.store.codes then PendingCode(taken'.value)
        else LiveRefresh(taken'.value)
    else if x.LiveRefresh? && x.hash !in s.store.tokens then InFlight(i)
    else x
  }

  lemma PriorHolds(s: Server, s': Server, i: nat, s1: string, s2: string, x: Holder, root: nat)
    requires Fresh(s) && Ready(s, i, s1, s2) && Moves(s, s', i, s1, s2) && Births(s, s', s.requests[i], s'.requests[i])
    requires Holds(s', x, root)
    ensures root < |s.issues| ==> Holds(s, Prior(s, s', i, x), root)
    ensures root >= |s.issues| ==> s.requests[i].PuttingCode? && x == PendingCode(Sha256(s.requests[i].code))
  {
    if x.InFlight? && x.id != i {
      assert RequestFresh(s, s.requests[x.id]);
    }
  }

  lemma PriorInjective(s: Server, s': Server, i: nat, s1: string, s2: string, x: Holder, y: Holder, root: nat)
    requires Moves(s, s', i, s1, s2) && Births(s, s', s.requests[i], s'.requests[i])
    requires Holds(s', x, root) && Holds(s', y, root) && Prior(s, s', i, x) == Prior(s, s', i, y)
    ensures x == y
  {
  }

  lemma MovesKeepOneHolder(s: Server, s': Server, i: nat, s1: string, s2: string)
    requires Fresh(s) && OneHolder(s) && Ready(s, i, s1, s2)
    requires Moves(s, s', i, s1, s2) && Births(s, s', s.requests[i], s'.requests[i])
    ensures OneHolder(s')
  {
    forall x, y, root | Holds(s', x, root) && Holds(s', y, root)
      ensures x == y
    {
      PriorHolds(s, s', i, s1, s2, x, root);
      PriorHolds(s, s', i, s1, s2, y, root);
      PriorInjective(s, s', i, s1, s2, x, y, root);
    }
  }

  lemma ShrinkHolds(s: Server, s': Server)
    requires Shrinks(s, s')
    ensures forall x, root :: Holds(s', x, root) ==> Holds(s, x, root)
  {
  }

  lemma OneHolderKept(cfg: Config, s: Server, e: Event)
    requires Fresh(s) && OneHolder(s)
    ensures OneHolder(Step(cfg, s, e))
  {
    if e.Advance? && Enabled(s, e) {
      AdvanceMoves(cfg, s, e.id, e.s1, e.s2);
      AdvanceBirths(cfg, s, e.id, e.s1, e.s2);
      MovesKeepOneHolder(s, AdvanceRequest(cfg, s, e.id, e.s1, e.s2), e.id, e.s1, e.s2);
    } else {
      OutsideShrinks(cfg, s, e);
      ShrinkHolds(s, Step(cfg, s, e));
    }
  }
}
