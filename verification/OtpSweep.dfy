/** The TTL sweep of pending codes, at any moment of calls that overlap. */
module OtpSweep {
  import opened Prelude
  import opened OtpStore
  import OtpLimiter
  import OtpService
  import opened OtpBudget

  /** An event at its moment, in milliseconds. */
  datatype Timed = Timed(at: int, event: Event)

  function Events(run: seq<Timed>): seq<Event> {
    if run == [] then [] else [run[0].event] + Events(run[1..])
  }

  function Unswept(run: seq<Timed>): seq<Timed> {
    if run == [] then [] else (if run[0].event.Sweep? then [] else [run[0]]) + Unswept(run[1..])
  }

  predicate Waiting(l: Local) {
    !l.Checked? && !l.Asked?
  }

  /** The clock a waiting call read when it began. */
  function Began(l: Local): int
    requires Waiting(l)
  {
    if l.Storing? then l.record.issuedAt else l.now
  }

  /** Calls read the clock on arrival, make each store call within `limit` of it, and sweeps use the clock. */
  predicate OnTime(limit: int, s: System, t: Timed) {
    match t.event
    case Arrive(_, call) => Arrival(call) ==> call.now == t.at
    case Advance(id) => id in s.calls && Waiting(s.calls[id]) ==> t.at <= Began(s.calls[id]) + limit
    case Sweep(_, at) => at == t.at
  }

  /** A run on a clock that never runs back, in which no call lasts longer than `limit`. */
  predicate Timely(limit: int, now: int, s: System, run: seq<Timed>)
    decreases |run|
  {
    run == [] ||
    (now <= run[0].at && OnTime(limit, s, run[0]) && Timely(limit, run[0].at, Step(s, run[0].event), run[1..]))
  }

  /** A run from the empty store. */
  predicate IsRun(limit: int, start: int, run: seq<Timed>) {
    Timely(limit, start, INIT, run)
  }

  /** The calls of a run stand alike with its sweeps and without them. */
  predicate Unnoticed(run: seq<Timed>) {
    Run(INIT, Events(run)).calls == Run(INIT, Events(Unswept(run))).calls
  }

  /** Half an hour and half a second, in milliseconds. */
  const LONGEST_CALL := 1800500

  // What holds without sweeps ----------------------------------------------------------

  /** A record's last send fell in its window, and its code lives ten minutes. */
  predicate Windowed(r: OtpRecord) {
    r.issuedAt < r.windowStart + OTP_SEND_WINDOW_MS && r.expiresAt == r.issuedAt + OTP_TTL_MS
  }

  /** A fetched guess counts its attempt before the stored record can be swept. */
  predicate Sheltered(limit: int, records: OtpService.Records, l: Local) {
    l.Recording? && l.key in records ==> l.now + limit < records[l.key].windowStart + 2 * OTP_SEND_WINDOW_MS + 1000
  }

  predicate Started(now: int, l: Local) {
    && (Waiting(l) ==> Began(l) <= now)
    && (l.Storing? ==> Windowed(l.record))
  }

  ghost predicate Ordered(limit: int, now: int, u: System) {
    && (forall k :: k in u.records ==> Windowed(u.records[k]))
    && (forall i :: i in u.calls ==> Started(now, u.calls[i]) && Sheltered(limit, u.records, u.calls[i]))
  }

  lemma OneMoveOrdered(limit: int, now: int, u: System, id: nat)
    requires limit <= LONGEST_CALL && Ordered(limit, now, u)
    requires id in u.calls && Waiting(u.calls[id]) && now <= Began(u.calls[id]) + limit
    ensures var u' := Move(u, id, u.calls[id]);
      && (forall k :: k in u'.records ==> Windowed(u'.records[k]))
      && Started(now, u'.calls[id])
      && Sheltered(limit, u'.records, u'.calls[id])
  {
    assert Started(now, u.calls[id]);
  }

  lemma MoveShelters(limit: int, now: int, u: System, id: nat, i: nat)
    requires limit <= LONGEST_CALL && Ordered(limit, now, u)
    requires id in u.calls && Waiting(u.calls[id]) && now <= Began(u.calls[id]) + limit
    requires i in u.calls
    ensures Sheltered(limit, Move(u, id, u.calls[id]).records, u.calls[i])
  {
    assert Started(now, u.calls[id]);
    assert Started(now, u.calls[i]) && Sheltered(limit, u.records, u.calls[i]);
  }

  lemma StepOrdered(limit: int, now: int, u: System, t: Timed)
    requires limit <= LONGEST_CALL && Ordered(limit, now, u) && now <= t.at && OnTime(limit, u, t) && !t.event.Sweep?
    ensures Ordered(limit, t.at, Step(u, t.event))
  {
    assert forall i :: i in u.calls ==> Started(now, u.calls[i]);
    assert Ordered(limit, t.at, u);
    if t.event.Advance? && t.event.id in u.calls && Waiting(u.calls[t.event.id]) {
      var id := t.event.id;
      OneMoveOrdered(limit, t.at, u, id);
      forall i | i in u.calls ensures Sheltered(limit, Move(u, id, u.calls[id]).records, u.calls[i]) {
        MoveShelters(limit, t.at, u, id, i);
      }
    }
  }

  // What the sweep hides ---------------------------------------------------------------

  /** What a swept store answers in place of `u`: the same, or nothing where `u` may be swept. */
  predicate ReadHides(now: int, r: Option<OtpRecord>, u: Option<OtpRecord>) {
    r == u || (r.None? && u.Some? && Sweepable(u.value, now))
  }

  /** `s` is `u` without some rows swept by `now`. */
  ghost predicate Hides(now: int, s: System, u: System) {
    && s == u.(records := s.records)
    && forall k :: ReadHides(now, OtpService.Find(s.records, k), OtpService.Find(u.records, k))
  }

  /** A row that may be swept is no obstacle to a request, and no use to a guess. */
  lemma SweptAnswersAlike(limit: int, now: int, r: OtpRecord, began: int, mac: Mac)
    requires limit <= LONGEST_CALL && Windowed(r) && Sweepable(r, now) && now <= began + limit
    ensures r.expiresAt < began
    ensures OtpLimiter.TryIssue(Some(r), began, mac) == OtpLimiter.TryIssue(None, began, mac)
  {
  }

  lemma MoveHides(limit: int, now: int, s: System, u: System, id: nat)
    requires limit <= LONGEST_CALL && Ordered(limit, now, u) && Hides(now, s, u)
    requires id in u.calls && Waiting(u.calls[id]) && now <= Began(u.calls[id]) + limit
    ensures var s', u' := Move(s, id, s.calls[id]), Move(u, id, u.calls[id]); s' == u'.(records := s'.records)
  {
    var l := u.calls[id];
    assert Started(now, l) && Sheltered(limit, u.records, l);
    assert ReadHides(now, OtpService.Find(s.records, l.key), OtpService.Find(u.records, l.key));
    if l.Asking? && l.key in u.records && l.key !in s.records {
      SweptAnswersAlike(limit, now, u.records[l.key], l.now, l.mac);
    }
  }

  lemma MoveReadHides(limit: int, now: int, s: System, u: System, id: nat, k: string)
    requires Ordered(limit, now, u) && Hides(now, s, u)
    requires id in u.calls && Waiting(u.calls[id]) && now <= Began(u.calls[id]) + limit
    ensures ReadHides(now, OtpService.Find(Move(s, id, s.calls[id]).records, k),
            OtpService.Find(Move(u, id, u.calls[id]).records, k))
  {
    assert ReadHides(now, OtpService.Find(s.records, k), OtpService.Find(u.records, k));
    assert Sheltered(limit, u.records, u.calls[id]);
  }

  lemma StepHides(limit: int, now: int, s: System, u: System, t: Timed)
    requires limit <= LONGEST_CALL && Ordered(limit, now, u) && Hides(now, s, u) && now <= t.at && OnTime(limit, s, t)
    requires !t.event.Sweep?
    ensures Hides(t.at, Step(s, t.event), Step(u, t.event))
  {
    forall k ensures ReadHides(t.at, OtpService.Find(s.records, k), OtpService.Find(u.records, k)) {
      assert ReadHides(now, OtpService.Find(s.records, k), OtpService.Find(u.records, k));
    }
    forall i | i in u.calls ensures Started(t.at, u.calls[i]) { assert Started(now, u.calls[i]); }
    if t.event.Advance? && t.event.id in u.calls && Waiting(u.calls[t.event.id]) {
      var id := t.event.id;
      MoveHides(limit, t.at, s, u, id);
      forall k ensures ReadHides(t.at, OtpService.Find(Move(s, id, s.calls[id]).records, k),
        OtpService.Find(Move(u, id, u.calls[id]).records, k)) {
        MoveReadHides(limit, t.at, s, u, id, k);
      }
    }
  }

  lemma SweepHides(now: int, s: System, u: System, keys: set<string>, at: int)
    requires Hides(now, s, u) && now <= at
    ensures Hides(at, Step(s, Sweep(keys, at)), u)
  {
    forall k ensures ReadHides(at, OtpService.Find(Swept(s.records, keys, at), k), OtpService.Find(u.records, k)) {
      assert ReadHides(now, OtpService.Find(s.records, k), OtpService.Find(u.records, k));
    }
  }

  lemma {:induction false} SweptRunHides(limit: int, now: int, s: System, u: System, run: seq<Timed>)
    requires limit <= LONGEST_CALL && Ordered(limit, now, u) && Hides(now, s, u) && Timely(limit, now, s, run)
    ensures Run(s, Events(run)) == Run(u, Events(Unswept(run))).(records := Run(s, Events(run)).records)
    decreases |run|
  {
    if run != [] {
      var t, rest := run[0], run[1..];
      if t.event.Sweep? {
        SweepHides(now, s, u, t.event.keys, t.at);
        assert Ordered(limit, t.at, u) by {
          forall i | i in u.calls ensures Started(t.at, u.calls[i]) { assert Started(now, u.calls[i]); }
        }
        SweptRunHides(limit, t.at, Step(s, t.event), u, rest);
        assert Unswept(run) == Unswept(rest);
      } else {
        StepHides(limit, now, s, u, t);
        StepOrdered(limit, now, u, t);
        SweptRunHides(limit, t.at, Step(s, t.event), Step(u, t.event), rest);
        assert Unswept(run)[0] == t && Unswept(run)[1..] == Unswept(rest);
      }
      assert Events(run)[1..] == Events(rest);
    }
  }

  /**
   * Sweeping any expired rows, at any moments of overlapping calls, changes the
   * state and the outcome of none of them, as long as no call outlasts the limit.
   */
  lemma SweepIsUnobservable(limit: int, start: int, run: seq<Timed>)
    requires limit <= LONGEST_CALL && IsRun(limit, start, run)
    ensures Unnoticed(run)
  {
    SweptRunHides(limit, start, INIT, INIT, run);
  }

  // A longer call notices ----------------------------------------------------------------

  /** A part of a run without sweeps, from `s` to `s'`, that ends at the moment `at`. */
  predicate Reaches(limit: int, now: int, s: System, part: seq<Timed>, at: int, s': System) {
    && part != [] && part[|part| - 1].at == at && Unswept(part) == part
    && Timely(limit, now, s, part) && Run(s, Events(part)) == s'
  }

  lemma {:induction false} Continues(limit: int, now: int, s: System, part: seq<Timed>, at: int, s': System,
          rest: seq<Timed>)
    requires Reaches(limit, now, s, part, at, s') && Timely(limit, at, s', rest)
    ensures Timely(limit, now, s, part + rest)
    ensures Run(s, Events(part + rest)) == Run(s', Events(rest))
    ensures Run(s, Events(Unswept(part + rest))) == Run(s', Events(Unswept(rest)))
    decreases |part|
  {
    var t, tail := part[0], part[1..];
    assert part == [t] + tail && part + rest == [t] + (tail + rest);
    UnsweptShrinks(tail);
    FirstEvent(limit, now, s, t, tail);
    FirstEvent(limit, now, s, t, tail + rest);
    if tail == [] {
      assert tail + rest == rest;
    } else {
      Continues(limit, t.at, Step(s, t.event), tail, at, s', rest);
    }
  }

  lemma FirstEvent(limit: int, now: int, s: System, t: Timed, rest: seq<Timed>)
    ensures Timely(limit, now, s, [t] + rest)
            <==> now <= t.at && OnTime(limit, s, t) && Timely(limit, t.at, Step(s, t.event), rest)
    ensures Run(s, Events([t] + rest)) == Run(Step(s, t.event), Events(rest))
    ensures Unswept([t] + rest) == (if t.event.Sweep? then [] else [t]) + Unswept(rest)
    ensures !t.event.Sweep? ==>
              Run(s, Events(Unswept([t] + rest))) == Run(Step(s, t.event), Events(Unswept(rest)))
  {
    var run := [t] + rest;
    assert run[1..] == rest && Events(run)[1..] == Events(rest);
    if !t.event.Sweep? {
      assert Unswept(run)[1..] == Unswept(rest) && Events(Unswept(run))[1..] == Events(Unswept(rest));
    }
  }

  lemma {:induction false} UnsweptShrinks(run: seq<Timed>)
    ensures |Unswept(run)| <= |run|
  {
    if run != [] { UnsweptShrinks(run[1..]); }
  }

  lemma Unfold(limit: int, now: int, s: System, run: seq<Timed>)
    requires |run| >= 2
    ensures var s' := Step(Step(s, run[0].event), run[1].event);
      && Run(s, Events(run)) == Run(s', Events(run[2..]))
      && (Timely(limit, now, s, run) <==>
          && now <= run[0].at <= run[1].at && OnTime(limit, s, run[0]) && OnTime(limit, Step(s, run[0].event), run[1])
          && Timely(limit, run[1].at, s', run[2..]))
      && (!run[0].event.Sweep? && !run[1].event.Sweep? ==> Unswept(run) == run[..2] + Unswept(run[2..]))
  {
    assert run[1..][1..] == run[2..];
    assert Events(run)[1..] == Events(run[1..]) && Events(run[1..])[1..] == Events(run[2..]);
  }

  lemma ThreeEvents(limit: int, now: int, s: System, a: Timed, b: Timed, c: Timed)
    requires !a.event.Sweep? && !b.event.Sweep? && !c.event.Sweep?
    requires now <= a.at <= b.at <= c.at
    requires OnTime(limit, s, a) && OnTime(limit, Step(s, a.event), b)
    requires OnTime(limit, Step(Step(s, a.event), b.event), c)
    ensures Reaches(limit, now, s, [a, b, c], c.at, Step(Step(Step(s, a.event), b.event), c.event))
  {
    Unfold(limit, now, s, [a, b, c]);
    assert [a, b, c][2..] == [c] && [c][1..] == [];
    assert Events([c]) == [c.event] && Unswept([c]) == [c];
  }

  lemma AskSends(s: System, id: nat, key: string, mac: Mac, now: int, rec: OtpRecord)
    requires id !in s.calls && OtpLimiter.TryIssue(OtpService.Find(s.records, key), now, mac) == Ok(rec)
    ensures var s1 := Step(Step(s, Arrive(id, Asking(key, mac, now))), Advance(id));
      && s1 == s.(calls := s.calls[id := Storing(key, rec)])
      && Step(s1, Advance(id)) == System(s.records[key := rec], s.calls[id := Asked(true)],
                                         s.puts[key := Count(s.puts, key) + 1], s.compared)
  {
    assert s.calls[id := Asking(key, mac, now)][id := Storing(key, rec)] == s.calls[id := Storing(key, rec)];
    assert s.calls[id := Storing(key, rec)][id := Asked(true)] == s.calls[id := Asked(true)];
  }

  lemma GuessFetches(s: System, id: nat, key: string, mac: Mac, now: int)
    requires id !in s.calls && key in s.records && now <= s.records[key].expiresAt
    ensures Step(Step(s, Arrive(id, Guessing(key, true, mac, now))), Advance(id))
            == s.(calls := s.calls[id := Recording(key, mac, s.records[key], now)])
  {
    var guess, fetched := Guessing(key, true, mac, now), Recording(key, mac, s.records[key], now);
    assert s.calls[id := guess][id := fetched] == s.calls[id := fetched];
  }

  /** The first code, sent at 0, opens the window; a second request reads it 1 ms before the window closes. */
  function FirstCode(mac: Mac): OtpRecord {
    OtpRecord(mac, 600000, 0, 0, 0, 1)
  }

  function SecondCode(mac: Mac): OtpRecord {
    OtpRecord(mac, 4199999, 3599999, 0, 0, 2)
  }

  function ThirdCode(mac: Mac): OtpRecord {
    OtpRecord(mac, 6000500, 5400500, 0, 5400500, 1)
  }

  function AfterFirst(key: string, mac: Mac): System {
    System(map[key := FirstCode(mac)], map[0 := Asked(true)], map[key := 1], map[])
  }

  function AfterSecond(key: string, mac: Mac): System {
    AfterFirst(key, mac).(calls := map[0 := Asked(true), 1 := Storing(key, SecondCode(mac))])
  }

  function AfterThird(key: string, mac: Mac): System {
    System(map[key := ThirdCode(mac)], map[0 := Asked(true), 1 := Storing(key, SecondCode(mac)), 2 := Asked(true)],
           map[key := 2], map[])
  }

  function BeforeSweep(key: string, mac: Mac): System {
    System(map[key := SecondCode(mac)],
           map[0 := Asked(true), 1 := Asked(true), 2 := Asked(true), 3 := Recording(key, mac, ThirdCode(mac), 5400500)],
           map[key := 3], map[])
  }

  /** A code is sent. */
  lemma FirstPart(limit: int, key: string, mac: Mac) returns (part: seq<Timed>)
    requires limit > LONGEST_CALL
    ensures Reaches(limit, 0, INIT, part, 0, AfterFirst(key, mac))
  {
    var a, b := Timed(0, Arrive(0, Asking(key, mac, 0))), Timed(0, Advance(0));
    part := [a, b, b];
    AskSends(INIT, 0, key, mac, 0, FirstCode(mac));
    ThreeEvents(limit, 0, INIT, a, b, b);
  }

  /** A second request in its window stalls before it stores its code. */
  lemma SecondPart(limit: int, key: string, mac: Mac) returns (part: seq<Timed>)
    requires limit > LONGEST_CALL
    ensures Reaches(limit, 0, AfterFirst(key, mac), part, 3599999, AfterSecond(key, mac))
  {
    var a, b := Timed(3599999, Arrive(1, Asking(key, mac, 3599999))), Timed(3599999, Advance(1));
    part := [a, b];
    AskSends(AfterFirst(key, mac), 1, key, mac, 3599999, SecondCode(mac));
    Unfold(limit, 0, AfterFirst(key, mac), part);
    assert part[2..] == [];
  }

  /** Half an hour later a third request starts a window of its own. */
  lemma ThirdPart(limit: int, key: string, mac: Mac) returns (part: seq<Timed>)
    requires limit > LONGEST_CALL
    ensures Reaches(limit, 3599999, AfterSecond(key, mac), part, 5400500, AfterThird(key, mac))
  {
    var a, b := Timed(5400500, Arrive(2, Asking(key, mac, 5400500))), Timed(5400500, Advance(2));
    part := [a, b, b];
    AskSends(AfterSecond(key, mac), 2, key, mac, 5400500, ThirdCode(mac));
    ThreeEvents(limit, 3599999, AfterSecond(key, mac), a, b, b);
  }

  lemma Overwrites(key: string, mac: Mac)
    ensures var s := AfterThird(key, mac);
      Step(s.(calls := s.calls[3 := Recording(key, mac, ThirdCode(mac), 5400500)]), Advance(1)) == BeforeSweep(key, mac)
  {
    assert map[key := ThirdCode(mac)][key := SecondCode(mac)] == map[key := SecondCode(mac)];
  }

  /** A guess fetches the third code, and the stalled request puts its own over it, in the old window. */
  lemma FourthPart(limit: int, key: string, mac: Mac) returns (part: seq<Timed>)
    requires limit > LONGEST_CALL
    ensures Reaches(limit, 5400500, AfterThird(key, mac), part, 5400500, BeforeSweep(key, mac))
  {
    var a, b := Timed(5400500, Arrive(3, Guessing(key, true, mac, 5400500))), Timed(5400500, Advance(3));
    var c := Timed(5400500, Advance(1));
    part := [a, b, c];
    var s := AfterThird(key, mac);
    GuessFetches(s, 3, key, mac, 5400500);
    Overwrites(key, mac);
    ThreeEvents(limit, 5400500, s, a, b, c);
  }

  /** How a guess that has fetched a matching record ends, alone: as the stored row allows. */
  lemma GuessEnds(s: System, key: string, mac: Mac, fetched: OtpRecord, now: int)
    requires 3 in s.calls && s.calls[3] == Recording(key, mac, fetched, now) && fetched.codeHash == mac
    requires key in s.records ==> s.records[key].attempts == 0
    ensures Step(Step(s, Advance(3)), Advance(3)).calls == s.calls[3 := Checked(key in s.records)]
  {
  }

  /** The sweep takes that row before the guess counts its attempt. */
  lemma LastPart(limit: int, key: string, mac: Mac) returns (part: seq<Timed>)
    requires limit > LONGEST_CALL
    ensures Timely(limit, 5400500, BeforeSweep(key, mac), part)
    ensures Run(BeforeSweep(key, mac), Events(part)).calls == BeforeSweep(key, mac).calls[3 := Checked(false)]
    ensures Run(BeforeSweep(key, mac), Events(Unswept(part))).calls == BeforeSweep(key, mac).calls[3 := Checked(true)]
  {
    var a, b := Timed(7201000, Sweep({key}, 7201000)), Timed(7201000, Advance(3));
    part := [a, b, b];
    var u := BeforeSweep(key, mac);
    var s := Step(u, a.event);
    assert key !in s.records && s.calls == u.calls;
    GuessEnds(s, key, mac, ThirdCode(mac), 5400500);
    GuessEnds(u, key, mac, ThirdCode(mac), 5400500);
    Unfold(limit, 7201000, s, [b, b]);
    Unfold(limit, 7201000, u, [b, b]);
    assert part[1..] == [b, b] && [b, b][2..] == [] && Unswept(part) == Unswept([b, b]) == [b, b];
    assert Events(part)[1..] == Events([b, b]);
  }

  /** A right, unexpired guess that lasts half an hour and 501 ms, and is refused because of the sweep. */
  lemma StalledGuess(limit: int, key: string, mac: Mac) returns (run: seq<Timed>)
    requires limit > LONGEST_CALL
    ensures IsRun(limit, 0, run)
    ensures var s := Run(INIT, Events(run)); 3 in s.calls && s.calls[3] == Checked(false)
    ensures var u := Run(INIT, Events(Unswept(run))); 3 in u.calls && u.calls[3] == Checked(true)
  {
    var last := LastPart(limit, key, mac);
    var fourth := FourthPart(limit, key, mac);
    Continues(limit, 5400500, AfterThird(key, mac), fourth, 5400500, BeforeSweep(key, mac), last);
    var third := ThirdPart(limit, key, mac);
    Continues(limit, 3599999, AfterSecond(key, mac), third, 5400500, AfterThird(key, mac), fourth + last);
    var second := SecondPart(limit, key, mac);
    Continues(limit, 0, AfterFirst(key, mac), second, 3599999, AfterSecond(key, mac), third + (fourth + last));
    var first := FirstPart(limit, key, mac);
    run := first + (second + (third + (fourth + last)));
    Continues(limit, 0, INIT, first, 0, AfterFirst(key, mac), second + (third + (fourth + last)));
  }

  /** The sweep goes unnoticed in every run exactly when no call lasts longer than half an hour and half a second. */
  lemma UnobservableIff(limit: int)
    ensures limit <= LONGEST_CALL <==> forall start, run :: IsRun(limit, start, run) ==> Unnoticed(run)
  {
    if limit <= LONGEST_CALL {
      forall start, run | IsRun(limit, start, run) ensures Unnoticed(run) {
        SweepIsUnobservable(limit, start, run);
      }
    } else {
      var run := StalledGuess(limit, "", Hmac(""));
      assert IsRun(limit, 0, run) && !Unnoticed(run);
    }
  }
}
