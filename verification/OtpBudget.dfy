/** Requests and guesses that do overlap: each store call is one atomic step. */
module OtpBudget {
  import opened Prelude
  import opened OtpStore
  import opened OtpLimiter
  import opened OtpService

  /** Where one call stands: the store call it waits for. */
  datatype Local =
    | Guessing(key: string, well: bool, mac: Mac, now: int)
    | Recording(key: string, mac: Mac, fetched: OtpRecord, now: int)
    | Deleting(key: string, confirmed: bool, now: int)
    | Checked(confirmed: bool)
    | Asking(key: string, mac: Mac, now: int)
    | Storing(key: string, record: OtpRecord)
    | Asked(sent: bool)

  /** `puts` and `compared` count, per key, the records stored and the comparisons that passed the attempt gate. */
  datatype System = System(records: Records, calls: map<nat, Local>, puts: map<string, nat>, compared: map<string, nat>)

  const INIT := System(map[], map[], map[], map[])

  function Count(m: map<string, nat>, key: string): nat {
    if key in m then m[key] else 0
  }

  /** A call starts, a call makes its next store call, or the store sweeps some rows whose `ttl` has passed. */
  datatype Event = Arrive(id: nat, call: Local) | Advance(id: nat) | Sweep(keys: set<string>, at: int)

  /** The row's `ttl` attribute, in epoch seconds: two hours after its window began, rounded up. */
  function Ttl(r: OtpRecord): int {
    (r.windowStart + 2 * 60 * 60 * 1000 + 999) / 1000
  }

  predicate Sweepable(r: OtpRecord, now: int) {
    Ttl(r) < now / 1000
  }

  function Swept(records: Records, keys: set<string>, now: int): Records {
    map k | k in records && !(k in keys && Sweepable(records[k], now)) :: records[k]
  }

  predicate Arrival(l: Local) {
    l.Guessing? || l.Asking?
  }

  /** The counter `recordAttempt` returns. */
  function AttemptNumber(records: Records, key: string): int {
    if key in records then records[key].attempts + 1 else MAX_SAFE_INTEGER
  }

  function Recorded(records: Records, key: string): Records {
    if key in records then records[key := records[key].(attempts := records[key].attempts + 1)] else records
  }

  function Step(s: System, e: Event): System {
    match e
    case Arrive(id, call) => if id !in s.calls && Arrival(call) then s.(calls := s.calls[id := call]) else s
    case Advance(id) => if id in s.calls then Move(s, id, s.calls[id]) else s
    case Sweep(keys, at) => s.(records := Swept(s.records, keys, at))
  }

  function Move(s: System, id: nat, l: Local): System {
    match l
    case Guessing(key, well, mac, now) =>
      var r := Find(s.records, key);
      s.(calls := s.calls[id := if !well || r.None? || r.value.expiresAt < now then Checked(false)
                                else Recording(key, mac, r.value, now)])
    case Recording(key, mac, fetched, now) =>
      var s' := s.(records := Recorded(s.records, key));
      if AttemptNumber(s.records, key) > OTP_MAX_ATTEMPTS then s'.(calls := s.calls[id := Deleting(key, false, now)])
      else s'.(calls := s.calls[id := if fetched.codeHash != mac then Checked(false) else Deleting(key, true, now)],
               compared := s.compared[key := Count(s.compared, key) + 1])
    case Deleting(key, confirmed, _) => s.(records := s.records - {key}, calls := s.calls[id := Checked(confirmed)])
    case Asking(key, mac, now) =>
      (match TryIssue(Find(s.records, key), now, mac)
       case Ok(rec) => s.(calls := s.calls[id := Storing(key, rec)])
       case Err(_) => s.(calls := s.calls[id := Asked(false)]))
    case Storing(key, rec) =>
      s.(records := s.records[key := rec], calls := s.calls[id := Asked(true)],
        puts := s.puts[key := Count(s.puts, key) + 1])
    case _ => s
  }

  function Run(s: System, events: seq<Event>): System
    decreases |events|
  {
    if events == [] then s else Run(Step(s, events[0]), events[1..])
  }

  /** What is left of a record's budget. */
  function Left(records: Records, key: string): nat {
    if key in records && records[key].attempts <= OTP_MAX_ATTEMPTS then OTP_MAX_ATTEMPTS - records[key].attempts else 0
  }

  ghost predicate Budgeted(s: System) {
    && (forall key :: WithinBudget(s, key))
    && (forall key :: key in s.records ==> s.records[key].attempts >= 0)
    && (forall i :: i in s.calls && s.calls[i].Storing? ==> s.calls[i].record.attempts == 0)
  }

  predicate WithinBudget(s: System, key: string) {
    Count(s.compared, key) + Left(s.records, key) <= OTP_MAX_ATTEMPTS * Count(s.puts, key)
  }

  lemma RecordingKeepsBudget(s: System, id: nat, key: string)
    requires Budgeted(s) && id in s.calls && s.calls[id].Recording?
    ensures WithinBudget(Move(s, id, s.calls[id]), key)
  {
    assert WithinBudget(s, key);
  }

  lemma StoringKeepsBudget(s: System, id: nat, key: string)
    requires Budgeted(s) && id in s.calls && s.calls[id].Storing?
    ensures WithinBudget(Move(s, id, s.calls[id]), key)
  {
    assert WithinBudget(s, key);
  }

  lemma OthersKeepBudget(s: System, id: nat, key: string)
    requires Budgeted(s) && id in s.calls && !s.calls[id].Storing? && !s.calls[id].Recording?
    ensures WithinBudget(Move(s, id, s.calls[id]), key)
  {
    assert WithinBudget(s, key);
  }

  lemma MoveKeepsShape(s: System, id: nat)
    requires Budgeted(s) && id in s.calls
    ensures var s' := Move(s, id, s.calls[id]);
      && (forall key :: key in s'.records ==> s'.records[key].attempts >= 0)
      && (forall i :: i in s'.calls && s'.calls[i].Storing? ==> s'.calls[i].record.attempts == 0)
  {
  }

  lemma BudgetKept(s: System, e: Event)
    requires Budgeted(s)
    ensures Budgeted(Step(s, e))
  {
    if e.Advance? && e.id in s.calls {
      MoveKeepsShape(s, e.id);
      forall key ensures WithinBudget(Move(s, e.id, s.calls[e.id]), key) {
        if s.calls[e.id].Recording? { RecordingKeepsBudget(s, e.id, key); }
        else if s.calls[e.id].Storing? { StoringKeepsBudget(s, e.id, key); }
        else { OthersKeepBudget(s, e.id, key); }
      }
    } else {
      forall key ensures WithinBudget(Step(s, e), key) { assert WithinBudget(s, key); }
    }
  }

  lemma {:induction false} RunsAreBudgeted(s: System, events: seq<Event>)
    requires Budgeted(s)
    ensures Budgeted(Run(s, events))
    decreases |events|
  {
    if events != [] {
      BudgetKept(s, events[0]);
      RunsAreBudgeted(Step(s, events[0]), events[1..]);
    }
  }

  /** However guesses, requests and sweeps interleave: at most five comparisons per record stored. */
  lemma AttemptBudget(events: seq<Event>, key: string)
    ensures var s := Run(INIT, events); Count(s.compared, key) <= 5 * Count(s.puts, key)
  {
    RunsAreBudgeted(INIT, events);
    assert WithinBudget(Run(INIT, events), key);
  }

  /** An attempt counted on a deleted record passes no gate and revives nothing. */
  lemma DeletedRecordGatesAll(s: System, id: nat)
    requires id in s.calls && s.calls[id].Recording? && s.calls[id].key !in s.records
    ensures var s' := Step(s, Advance(id));
      s'.records == s.records && s'.compared == s.compared
        && s'.calls[id] == Deleting(s.calls[id].key, false, s.calls[id].now)
  {
  }

  /**
   * Single use, by contrast, is a sequential promise: two overlapping guesses at
   * the right code can both be confirmed.
   */
  lemma OverlapConfirmsTwice(key: string, mac: Mac) returns (events: seq<Event>)
    ensures BothConfirmed(Run(INIT, events), key)
  {
    var guess := Guessing(key, true, mac, 0);
    var asks :=
      [Arrive(0, Asking(key, mac, 0)), Arrive(1, guess), Arrive(2, guess), Advance(0), Advance(0), Advance(1)];
    var rest := [Advance(2), Advance(1), Advance(2), Advance(1), Advance(2), Advance(0)];
    FirstFetches(key, mac, asks);
    BothConfirm(key, mac, Run(INIT, asks), rest);
    RunAppend(INIT, asks, rest);
    events := asks + rest;
  }

  /** One record was stored, and two guesses were confirmed. */
  predicate BothConfirmed(s: System, key: string) {
    && 1 in s.calls && 2 in s.calls && s.calls[1] == Checked(true) && s.calls[2] == Checked(true)
    && Count(s.puts, key) == 1
  }

  predicate Fetched(s: System, key: string, mac: Mac, rec: OtpRecord) {
    && rec.codeHash == mac && rec.attempts == 0 && rec.expiresAt >= 0
    && s.records == map[key := rec] && Count(s.puts, key) == 1
    && s.calls == map[0 := Asked(true), 1 := Recording(key, mac, rec, 0), 2 := Guessing(key, true, mac, 0)]
  }

  lemma FirstFetches(key: string, mac: Mac, events: seq<Event>)
    requires var guess := Guessing(key, true, mac, 0);
      events == [Arrive(0, Asking(key, mac, 0)), Arrive(1, guess), Arrive(2, guess), Advance(0), Advance(0), Advance(1)]
    ensures Fetched(Run(INIT, events), key, mac, TryIssue(None, 0, mac).value)
  {
    var rec, guess := TryIssue(None, 0, mac).value, Guessing(key, true, mac, 0);
    var s2 := Step(Step(INIT, events[0]), events[1]);
    assert s2 == System(map[], map[0 := Asking(key, mac, 0), 1 := guess], map[], map[]);
    var s4 := Step(Step(s2, events[2]), events[3]);
    assert s4 == System(map[], map[0 := Storing(key, rec), 1 := guess, 2 := guess], map[], map[]);
    TwoSteps(INIT, events);
    TwoSteps(s2, events[2..]);
    TwoSteps(s4, events[4..]);
  }

  predicate BothPass(s: System, key: string) {
    && s.calls == map[0 := Asked(true), 1 := Checked(true), 2 := Deleting(key, true, 0)] && Count(s.puts, key) == 1
  }

  lemma BothCompare(key: string, mac: Mac, s: System)
    requires Fetched(s, key, mac, TryIssue(None, 0, mac).value)
    ensures BothPass(Step(Step(Step(Step(s, Advance(2)), Advance(1)), Advance(2)), Advance(1)), key)
  {
    var rec := TryIssue(None, 0, mac).value;
    var s2 := Step(Step(s, Advance(2)), Advance(1));
    assert s2.records == map[key := rec.(attempts := 1)] && s2.puts == s.puts;
    assert s2.calls == map[0 := Asked(true), 1 := Deleting(key, true, 0), 2 := Recording(key, mac, rec, 0)];
  }

  lemma BothConfirm(key: string, mac: Mac, s: System, events: seq<Event>)
    requires Fetched(s, key, mac, TryIssue(None, 0, mac).value)
    requires events == [Advance(2), Advance(1), Advance(2), Advance(1), Advance(2), Advance(0)]
    ensures BothConfirmed(Run(s, events), key)
  {
    BothCompare(key, mac, s);
    var s2 := Step(Step(s, events[0]), events[1]);
    TwoSteps(s, events);
    TwoSteps(s2, events[2..]);
    TwoSteps(Step(Step(s2, events[2]), events[3]), events[4..]);
  }

  lemma {:induction false} RunAppend(s: System, a: seq<Event>, b: seq<Event>)
    ensures Run(s, a + b) == Run(Run(s, a), b)
    decreases |a|
  {
    if a == [] {
      assert a + b == b;
    } else {
      assert (a + b)[0] == a[0] && (a + b)[1..] == a[1..] + b;
      RunAppend(Step(s, a[0]), a[1..], b);
    }
  }

  lemma TwoSteps(s: System, events: seq<Event>)
    requires |events| >= 2
    ensures Run(s, events) == Run(Step(Step(s, events[0]), events[1]), events[2..])
  {
    assert events[1..][1..] == events[2..];
  }

  /** Three moves alone are the sequential guess of `OtpService`. */
  lemma GuessAlone(s: System, i: nat, channel: Channel, id: string, code: string, now: int)
    requires i in s.calls
    requires s.calls[i] == Guessing(KeyOf(channel, id), SixDigits(code), Hmac(Message(channel, id, code)), now)
    ensures var s' := Step(Step(Step(s, Advance(i)), Advance(i)), Advance(i));
      var (records, confirmed) := CheckCode(s.records, channel, id, code, now);
      s'.records == records && s'.calls[i] == Checked(confirmed)
  {
    var key := KeyOf(channel, id);
    if key in s.records { assert Recorded(s.records, key) - {key} == s.records - {key}; }
  }

  /** Two moves alone are the sequential request of `OtpService`. */
  lemma RequestAlone(s: System, i: nat, channel: Channel, id: string, code: string, now: int)
    requires i in s.calls && s.calls[i] == Asking(KeyOf(channel, id), Hmac(Message(channel, id, code)), now)
    ensures var s' := Step(Step(s, Advance(i)), Advance(i));
      var (records, result) := IssueCode(s.records, channel, id, code, now);
      s'.records == records && s'.calls[i] == Asked(result.Ok?)
  {
  }
}
