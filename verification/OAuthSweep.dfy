/** The store's TTL sweep cannot be noticed by any request. */
module OAuthSweep {
  import opened Prelude
  import opened OAuthStore
  import opened OAuthProtocol

  /** What a swept read returns in place of `u`: the same, or nothing where `u` is expired. */
  predicate CodeReadHides(now: int, r: Option<AuthCode>, u: Option<AuthCode>) {
    r == u || (r.None? && u.Some? && u.value.expiresAt < now)
  }

  predicate TokenReadHides(now: int, r: Option<TokenRecord>, u: Option<TokenRecord>) {
    r == u || (r.None? && u.Some? && u.value.expiresAt < now)
  }

  predicate RequestHides(now: int, l: Local, u: Local) {
    || l == u
    || (l.CodeTaken? && u.CodeTaken? && l == u.(authCode := l.authCode) && CodeReadHides(now, l.authCode, u.authCode))
    || (l.RefreshTaken? && u.RefreshTaken? && l == u.(record := l.record) && TokenReadHides(now, l.record, u.record))
    || (l.BearerRead? && u.BearerRead? && TokenReadHides(now, l.record, u.record))
  }

  ghost predicate StoreHides(now: int, st: Stored, u: Stored) {
    && st.clients == u.clients
    && (forall h :: CodeReadHides(now, Lookup(st.codes, h), Lookup(u.codes, h)))
    && (forall h :: TokenReadHides(now, Lookup(st.tokens, h), Lookup(u.tokens, h)))
  }

  /** `s` is `u` with some expired rows already swept. */
  ghost predicate Hides(s: Server, u: Server) {
    && s == u.(store := s.store, requests := s.requests)
    && StoreHides(s.now, s.store, u.store)
    && s.requests.Keys == u.requests.Keys
    && (forall i :: i in s.requests ==> RequestHides(s.now, s.requests[i], u.requests[i]))
  }

  lemma ContinueHides(cfg: Config, l: Local, u: Local, st: Stored, ut: Stored, now: int, s1: string, s2: string)
    requires RequestHides(now, l, u) && StoreHides(now, st, ut)
    ensures RequestHides(now, Continue(cfg, l, st, now, s1, s2), Continue(cfg, u, ut, now, s1, s2))
    ensures Continue(cfg, l, st, now, s1, s2).PuttingAccess? ==> l == u
    ensures Continue(cfg, u, ut, now, s1, s2).PuttingAccess? ==> l == u
  {
    if l.TakingCode? {
      assert CodeReadHides(now, Lookup(st.codes, Sha256(l.code)), Lookup(ut.codes, Sha256(l.code)));
    }
  }

  lemma StoreCallHides(l: Local, u: Local, st: Stored, ut: Stored, now: int)
    requires RequestHides(now, l, u) && StoreHides(now, st, ut)
    ensures StoreHides(now, StoreCall(l, st), StoreCall(u, ut))
  {
    forall h ensures CodeReadHides(now, Lookup(StoreCall(l, st).codes, h), Lookup(StoreCall(u, ut).codes, h)) {
      assert CodeReadHides(now, Lookup(st.codes, h), Lookup(ut.codes, h));
    }
    forall h ensures TokenReadHides(now, Lookup(StoreCall(l, st).tokens, h), Lookup(StoreCall(u, ut).tokens, h)) {
      assert TokenReadHides(now, Lookup(st.tokens, h), Lookup(ut.tokens, h));
    }
  }

  lemma AdvanceHides(cfg: Config, s: Server, u: Server, i: nat, s1: string, s2: string)
    requires Hides(s, u) && i in s.requests
    ensures Hides(AdvanceRequest(cfg, s, i, s1, s2), AdvanceRequest(cfg, u, i, s1, s2))
  {
    var l, m := s.requests[i], u.requests[i];
    assert RequestHides(s.now, l, m);
    StoreCallHides(l, m, s.store, u.store, s.now);
    ContinueHides(cfg, l, m, s.store, u.store, s.now, s1, s2);
    HistoryHides(cfg, s, u, i, s1, s2);
    AdvanceStore(cfg, s, i, s1, s2);
    AdvanceStore(cfg, u, i, s1, s2);
  }

  lemma AdvanceStore(cfg: Config, s: Server, i: nat, s1: string, s2: string)
    requires i in s.requests
    ensures var s' := AdvanceRequest(cfg, s, i, s1, s2);
      && s'.store == StoreCall(s.requests[i], s.store) && s'.now == s.now
      && s'.requests == s.requests[i := Continue(cfg, s.requests[i], s.store, s.now, s1, s2)]
  {
  }

  /** A check that fails, and a bearer check, write no history beyond the secrets drawn. */
  lemma ChecksWriteNothing(cfg: Config, s: Server, i: nat, s1: string, s2: string)
    requires i in s.requests && (s.requests[i].CodeTaken? || s.requests[i].RefreshTaken? || s.requests[i].BearerRead?)
    requires !Continue(cfg, s.requests[i], s.store, s.now, s1, s2).PuttingAccess?
    ensures var s' := AdvanceRequest(cfg, s, i, s1, s2);
      s' == s.(store := s'.store, requests := s'.requests, drawn := s.drawn + Draws(s.requests[i], s1, s2))
  {
  }

  /** The history a move writes depends on the request alone where the move is the same. */
  lemma SameMoveSameHistory(cfg: Config, s: Server, u: Server, i: nat, s1: string, s2: string)
    requires s == u.(store := s.store, requests := s.requests) && i in s.requests && i in u.requests
    requires s.requests[i] == u.requests[i]
    requires var l := s.requests[i]; l.CodeTaken? || l.Authorizing? ==>
             Continue(cfg, l, s.store, s.now, s1, s2) == Continue(cfg, l, u.store, u.now, s1, s2)
    ensures var s', u' := AdvanceRequest(cfg, s, i, s1, s2), AdvanceRequest(cfg, u, i, s1, s2);
      s' == u'.(store := s'.store, requests := s'.requests)
  {
  }

  lemma HistoryHides(cfg: Config, s: Server, u: Server, i: nat, s1: string, s2: string)
    requires Hides(s, u) && i in s.requests
    ensures var s', u' := AdvanceRequest(cfg, s, i, s1, s2), AdvanceRequest(cfg, u, i, s1, s2);
      s' == u'.(store := s'.store, requests := s'.requests)
  {
    var l, m := s.requests[i], u.requests[i];
    assert RequestHides(s.now, l, m);
    ContinueHides(cfg, l, m, s.store, u.store, s.now, s1, s2);
    if l == m {
      SameMoveSameHistory(cfg, s, u, i, s1, s2);
    } else {
      ChecksWriteNothing(cfg, s, i, s1, s2);
      ChecksWriteNothing(cfg, u, i, s1, s2);
    }
  }

  lemma OutsideHides(cfg: Config, s: Server, u: Server, e: Event)
    requires Hides(s, u) && !e.Advance? && !e.Sweep?
    ensures Hides(Step(cfg, s, e), Step(cfg, u, e))
  {
    var s', u' := Step(cfg, s, e), Step(cfg, u, e);
    forall h ensures CodeReadHides(s'.now, Lookup(s'.store.codes, h), Lookup(u'.store.codes, h)) {
      assert CodeReadHides(s.now, Lookup(s.store.codes, h), Lookup(u.store.codes, h));
    }
    forall h ensures TokenReadHides(s'.now, Lookup(s'.store.tokens, h), Lookup(u'.store.tokens, h)) {
      assert TokenReadHides(s.now, Lookup(s.store.tokens, h), Lookup(u.store.tokens, h));
    }
  }

  lemma SweepHides(cfg: Config, s: Server, u: Server, e: Event)
    requires Hides(s, u) && e.Sweep?
    ensures Hides(Step(cfg, s, e), u)
  {
    var s' := Step(cfg, s, e);
    forall h ensures CodeReadHides(s.now, Lookup(s'.store.codes, h), Lookup(u.store.codes, h)) {
      assert CodeReadHides(s.now, Lookup(s.store.codes, h), Lookup(u.store.codes, h));
    }
    forall h ensures TokenReadHides(s.now, Lookup(s'.store.tokens, h), Lookup(u.store.tokens, h)) {
      assert TokenReadHides(s.now, Lookup(s.store.tokens, h), Lookup(u.store.tokens, h));
    }
  }

  function Unswept(events: seq<Event>): seq<Event> {
    if events == [] then [] else
    (if events[0].Sweep? then [] else [events[0]]) + Unswept(events[1..])
  }

  lemma {:induction false} SweptRunHides(cfg: Config, s: Server, u: Server, events: seq<Event>)
    requires Hides(s, u)
    ensures Hides(Run(cfg, s, events), Run(cfg, u, Unswept(events)))
    decreases |events|
  {
    if events != [] {
      var e, rest := events[0], events[1..];
      if e.Sweep? {
        SweepHides(cfg, s, u, e);
        SweptRunHides(cfg, Step(cfg, s, e), u, rest);
        assert Unswept(events) == Unswept(rest);
      } else {
        if e.Advance? && Enabled(s, e) {
          AdvanceHides(cfg, s, u, e.id, e.s1, e.s2);
        } else if !e.Advance? {
          OutsideHides(cfg, s, u, e);
        }
        SweptRunHides(cfg, Step(cfg, s, e), Step(cfg, u, e), rest);
        assert Unswept(events)[0] == e && Unswept(events)[1..] == Unswept(rest);
      }
    }
  }

  predicate Finished(l: Local) {
    l.Issued? || l.Refused? || l.Answered? || l.Authenticated?
  }

  /**
   * Whatever expired rows are swept, and whenever: at the end of the run the same
   * requests have finished, each with the same outcome, as in the run without sweeps.
   */
  lemma SweepIsUnobservable(cfg: Config, events: seq<Event>, i: nat)
    ensures var s, u := Run(cfg, INIT, events), Run(cfg, INIT, Unswept(events));
      && (i in s.requests <==> i in u.requests)
      && (i in s.requests && (Finished(s.requests[i]) || Finished(u.requests[i])) ==> s.requests[i] == u.requests[i])
  {
    SweptRunHides(cfg, INIT, INIT, events);
  }
}
