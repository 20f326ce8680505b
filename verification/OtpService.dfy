/** Requests and confirmations that do not overlap. */
module OtpService {
  import opened Prelude
  import opened OtpStore
  import opened OtpLimiter
  import opened OtpIdentifiers

  type Records = map<string, OtpRecord>

  function Find(records: Records, key: string): Option<OtpRecord> {
    if key in records then Some(records[key]) else None
  }

  /** What a request for a code does to the store. */
  function IssueCode(records: Records, channel: Channel, id: string, code: string, now: int): (Records, Result<(),
          IssueError>) {
    var key := KeyOf(channel, id);
    match TryIssue(Find(records, key), now, Hmac(Message(channel, id, code)))
    case Ok(rec) => (records[key := rec], Ok(()))
    case Err(e) => (records, Err(e))
  }

  /** What a guess does to the store, and whether it confirms. */
  function CheckCode(records: Records, channel: Channel, id: string, code: string, now: int): (Records, bool) {
    var key := KeyOf(channel, id);
    if !SixDigits(code) || key !in records || records[key].expiresAt < now then (records, false)
    else if records[key].attempts + 1 > OTP_MAX_ATTEMPTS then (records - {key}, false)
    else if records[key].codeHash != Hmac(Message(channel, id, code)) then
      (records[key := records[key].(attempts := records[key].attempts + 1)], false)
    else (records - {key}, true)
  }

  class OtpService {
    const store: InMemoryOtpStore
    const phoneEnabled: bool

    constructor (store: InMemoryOtpStore, phoneEnabled: bool)
      ensures this.store == store && this.phoneEnabled == phoneEnabled
    {
      this.store := store;
      this.phoneEnabled := phoneEnabled;
    }

    /** The code is drawn at random by the caller's `generateCode`; sending it is not modelled. */
    method Issue(channel: Channel, id: string, code: string, now: int) returns (r: Result<(), IssueError>)
      modifies store
      ensures (store.records, r) == IssueCode(old(store.records), channel, id, code, now)
    {
      var key := KeyOf(channel, id);
      var existing := store.Get(key);
      if existing.Some? && now - existing.value.issuedAt < OTP_RESEND_COOLDOWN_MS {
        return Err(Cooldown);
      }
      var inWindow := existing.Some? && now - existing.value.windowStart < OTP_SEND_WINDOW_MS;
      var sendCount := if inWindow then existing.value.sendCount else 0;
      if sendCount >= OTP_MAX_SENDS_PER_WINDOW {
        return Err(TooManyCodes);
      }
      store.Put(key, OtpRecord(Hmac(Message(channel, id, code)), now + OTP_TTL_MS, now, 0,
                               if inWindow then existing.value.windowStart else now, sendCount + 1));
      return Ok(());
    }

    method Check(channel: Channel, id: string, code: string, now: int) returns (confirmed: bool)
      modifies store
      ensures (store.records, confirmed) == CheckCode(old(store.records), channel, id, code, now)
      ensures confirmed ==> |code| == 6 && forall c :: c in code ==> '0' <= c <= '9'
    {
      if !SixDigits(code) {
        return false;
      }
      var key := KeyOf(channel, id);
      var record := store.Get(key);
      if record.None? || record.value.expiresAt < now {
        return false;
      }
      var attempts := store.RecordAttempt(key);
      if attempts > OTP_MAX_ATTEMPTS {
        store.Delete(key);
        assert store.records == old(store.records) - {key};
        return false;
      }
      if record.value.codeHash != Hmac(Message(channel, id, code)) {
        return false;
      }
      store.Delete(key);
      assert store.records == old(store.records) - {key};
      return true;
    }

    /** The public call for the ordinary channels: `None` when the channel is off or the identifier is malformed. */
    method Request(channel: Channel, raw: string, code: string, now: int) returns (r: Option<Result<(), IssueError>>)
      requires channel != AnonymousEmail
      modifies store
      ensures r.None? <==> (channel == Phone && !phoneEnabled) || Normalize(channel, raw).None?
      ensures r.None? ==> store.records == old(store.records)
      ensures r.Some? ==>
              (store.records, r.value)
                == IssueCode(old(store.records), channel, Normalize(channel, raw).value, code, now)
    {
      if channel == Phone && !phoneEnabled {
        return None;
      }
      var id := Normalize(channel, raw);
      if id.None? {
        return None;
      }
      var issued := Issue(channel, id.value, code, now);
      return Some(issued);
    }

    /** The verified identifier, or `None` for a wrong, expired or exhausted code. */
    method Confirm(channel: Channel, raw: string, code: string, now: int) returns (r: Option<string>)
      requires channel != AnonymousEmail
      modifies store
      ensures var id := Normalize(channel, raw);
        if id.None? then r.None? && store.records == old(store.records)
        else
          && (store.records, r.Some?) == CheckCode(old(store.records), channel, id.value, code, now)
          && (r.Some? ==> r == id)
    {
      var id := Normalize(channel, raw);
      if id.None? {
        return None;
      }
      var confirmed := Check(channel, id.value, code, now);
      return if confirmed then id else None;
    }
  }

  // Whole runs -------------------------------------------------------------------------

  datatype Op =
    | Request(channel: Channel, id: string, code: string, now: int)
    | Confirm(channel: Channel, id: string, code: string, now: int)

  /** An operation that ran, and whether it sent or confirmed. */
  datatype Entry = Entry(op: Op, ok: bool)

  function Apply(records: Records, op: Op): (Records, bool) {
    match op
    case Request(channel, id, code, now) => (var r := IssueCode(records, channel, id, code, now); (r.0, r.1.Ok?))
    case Confirm(channel, id, code, now) => CheckCode(records, channel, id, code, now)
  }

  /** The store after the operations, and what each did. */
  function Run(ops: seq<Op>): (Records, seq<Entry>) {
    if ops == [] then (map[], []) else
    var before := Run(ops[..|ops| - 1]);
    var last := ops[|ops| - 1];
    var after := Apply(before.0, last);
    (after.0, before.1 + [Entry(last, after.1)])
  }

  predicate SentAt(log: seq<Entry>, k: int, channel: Channel, id: string)
    requires 0 <= k < |log|
  {
    log[k].op.Request? && log[k].ok && log[k].op.channel == channel && log[k].op.id == id
  }

  predicate TriedAt(log: seq<Entry>, k: int, channel: Channel, id: string)
    requires 0 <= k < |log|
  {
    log[k].op.Confirm? && log[k].op.channel == channel && log[k].op.id == id
  }

  /** The last code sent to this channel and identifier is the `k`-th entry, and it has not been confirmed since. */
  predicate Pending(log: seq<Entry>, k: int, channel: Channel, id: string) {
    && 0 <= k < |log| && SentAt(log, k, channel, id)
    && (forall j :: k < j < |log| ==> !SentAt(log, j, channel, id))
    && (forall j :: k < j < |log| ==> TriedAt(log, j, channel, id) ==> !log[j].ok)
  }

  /** Six-digit guesses at the code sent at `k`, made while it was valid, among the entries from `k` to `n`. */
  function Guesses(log: seq<Entry>, k: int, n: int, channel: Channel, id: string): nat
    requires 0 <= k <= n <= |log| && k < |log|
    decreases n
  {
    if n <= k + 1 then 0 else
    (if TriedAt(log, n - 1, channel, id) && SixDigits(log[n - 1].op.code)
      && log[n - 1].op.now <= log[k].op.now + 600000 then 1 else 0)
    + Guesses(log, k, n - 1, channel, id)
  }

  /** The promise: what a confirmation needs, told from the history alone. */
  ghost predicate Deserves(log: seq<Entry>, channel: Channel, id: string, code: string, now: int) {
    exists k ::
      && Pending(log, k, channel, id)
      && log[k].op.code == code && SixDigits(code)
      && now <= log[k].op.now + 600000
      && Guesses(log, k, |log|, channel, id) < 5
  }

  lemma {:induction false} GuessesPrefix(log: seq<Entry>, e: Entry, k: int, n: int, channel: Channel, id: string)
    requires 0 <= k <= n <= |log| && k < |log|
    ensures Guesses(log + [e], k, n, channel, id) == Guesses(log, k, n, channel, id)
    decreases n
  {
    if n > k + 1 { GuessesPrefix(log, e, k, n - 1, channel, id); }
  }

  /** The stored record says about the pending code exactly what the history says. */
  ghost predicate Linked(records: Records, log: seq<Entry>, channel: Channel, id: string) {
    var key := KeyOf(channel, id);
    if key in records then
      exists k :: LinkedAt(records[key], log, k, channel, id)
    else
      forall k :: Pending(log, k, channel, id) ==> Guesses(log, k, |log|, channel, id) >= OTP_MAX_ATTEMPTS
  }

  predicate LinkedAt(rec: OtpRecord, log: seq<Entry>, k: int, channel: Channel, id: string) {
    && Pending(log, k, channel, id)
    && rec.codeHash == Hmac(Message(channel, id, log[k].op.code))
    && rec.expiresAt == log[k].op.now + OTP_TTL_MS
    && rec.attempts == Guesses(log, k, |log|, channel, id) <= OTP_MAX_ATTEMPTS
  }

  lemma PendingAppends(log: seq<Entry>, e: Entry, channel: Channel, id: string)
    ensures forall k :: 0 <= k < |log| ==>
      (Pending(log + [e], k, channel, id) <==>
        Pending(log, k, channel, id) && !(e.ok && e.op.channel == channel && e.op.id == id))
  {
    var log' := log + [e];
    assert log'[|log|] == e;
    assert forall j :: 0 <= j < |log| ==> log'[j] == log[j];
    forall k | 0 <= k < |log|
      ensures Pending(log', k, channel, id) <==>
              Pending(log, k, channel, id) && !(e.ok && e.op.channel == channel && e.op.id == id)
    {
      if Pending(log', k, channel, id) {
        forall j | k < j < |log| ensures !SentAt(log, j, channel, id) && (TriedAt(log, j, channel, id) ==> !log[j].ok) {
          assert !SentAt(log', j, channel, id) && (TriedAt(log', j, channel, id) ==> !log'[j].ok);
        }
        assert !SentAt(log', |log|, channel, id) && (TriedAt(log', |log|, channel, id) ==> !log'[|log|].ok);
        assert SentAt(log', k, channel, id) && SentAt(log, k, channel, id);
      } else if Pending(log, k, channel, id) && !(e.ok && e.op.channel == channel && e.op.id == id) {
        assert SentAt(log', k, channel, id);
        forall j | k < j < |log'| ensures !SentAt(log', j, channel, id)
          && (TriedAt(log', j, channel, id) ==> !log'[j].ok) {
          if j < |log| { assert !SentAt(log, j, channel, id) && (TriedAt(log, j, channel, id) ==> !log[j].ok); }
        }
        assert Pending(log', k, channel, id);
      }
    }
  }

  /** An operation on another channel or identifier leaves the link alone. */
  lemma OtherLinked(records: Records, log: seq<Entry>, op: Op, channel: Channel, id: string)
    requires Linked(records, log, channel, id) && (op.channel != channel || op.id != id)
    ensures var (records', ok) := Apply(records, op); Linked(records', log + [Entry(op, ok)], channel, id)
  {
    var (records', ok) := Apply(records, op);
    OtherRecordStays(records, op, channel, id);
    OtherEntry(records, records', log, Entry(op, ok), channel, id);
  }

  lemma OtherRecordStays(records: Records, op: Op, channel: Channel, id: string)
    requires op.channel != channel || op.id != id
    ensures Find(Apply(records, op).0, KeyOf(channel, id)) == Find(records, KeyOf(channel, id))
  {
    if KeyOf(op.channel, op.id) == KeyOf(channel, id) { KeyInjective(op.channel, op.id, channel, id); }
  }

  lemma OtherEntry(records: Records, records': Records, log: seq<Entry>, e: Entry, channel: Channel, id: string)
    requires Linked(records, log, channel, id) && (e.op.channel != channel || e.op.id != id)
    requires Find(records', KeyOf(channel, id)) == Find(records, KeyOf(channel, id))
    ensures Linked(records', log + [e], channel, id)
  {
    PendingAppends(log, e, channel, id);
    forall k | 0 <= k < |log|
      ensures Guesses(log + [e], k, |log| + 1, channel, id) == Guesses(log, k, |log|, channel, id)
    {
      GuessesPrefix(log, e, k, |log|, channel, id);
    }
    if KeyOf(channel, id) in records {
      var k :| LinkedAt(records[KeyOf(channel, id)], log, k, channel, id);
      assert LinkedAt(records[KeyOf(channel, id)], log + [e], k, channel, id);
    }
  }

  /** A request, sent or refused, keeps the link. */
  lemma RequestLinked(records: Records, log: seq<Entry>, op: Op)
    requires op.Request? && Linked(records, log, op.channel, op.id)
    ensures var (records', ok) := Apply(records, op); Linked(records', log + [Entry(op, ok)], op.channel, op.id)
  {
    var (records', ok) := Apply(records, op);
    var e := Entry(op, ok);
    var key := KeyOf(op.channel, op.id);
    PendingAppends(log, e, op.channel, op.id);
    if ok {
      assert Pending(log + [e], |log|, op.channel, op.id);
      assert LinkedAt(records'[key], log + [e], |log|, op.channel, op.id);
    } else {
      KeepsGuesses(log, e, op.channel, op.id);
      if key in records {
        var k :| LinkedAt(records[key], log, k, op.channel, op.id);
        assert LinkedAt(records[key], log + [e], k, op.channel, op.id);
      }
    }
  }

  lemma KeepsGuesses(log: seq<Entry>, e: Entry, channel: Channel, id: string)
    ensures forall k :: 0 <= k < |log| ==>
      Guesses(log + [e], k, |log| + 1, channel, id) == Guesses(log, k, |log|, channel, id)
        + (if TriedAt(log + [e], |log|, channel, id) && SixDigits(e.op.code) && e.op.now <= log[k].op.now + OTP_TTL_MS
          then 1 else 0)
  {
    forall k | 0 <= k < |log|
      ensures Guesses(log + [e], k, |log|, channel, id) == Guesses(log, k, |log|, channel, id)
    {
      GuessesPrefix(log, e, k, |log|, channel, id);
    }
  }

  lemma OnePending(log: seq<Entry>, k: int, k': int, channel: Channel, id: string)
    requires Pending(log, k, channel, id) && Pending(log, k', channel, id)
    ensures k == k'
  {
  }

  /** A guess keeps the link, and confirms exactly when the history deserves it. */
  lemma ConfirmLinked(records: Records, log: seq<Entry>, op: Op)
    requires op.Confirm? && Linked(records, log, op.channel, op.id)
    ensures var (records', ok) := Apply(records, op);
      && Linked(records', log + [Entry(op, ok)], op.channel, op.id)
      && (ok <==> Deserves(log, op.channel, op.id, op.code, op.now))
  {
    var (records', ok) := Apply(records, op);
    var e := Entry(op, ok);
    var key := KeyOf(op.channel, op.id);
    PendingAppends(log, e, op.channel, op.id);
    KeepsGuesses(log, e, op.channel, op.id);
    if key in records {
      var k :| LinkedAt(records[key], log, k, op.channel, op.id);
      ConfirmLinkedAt(records, log, op, k);
    }
  }

  lemma ConfirmLinkedAt(records: Records, log: seq<Entry>, op: Op, k: int)
    requires op.Confirm? && KeyOf(op.channel, op.id) in records
    requires LinkedAt(records[KeyOf(op.channel, op.id)], log, k, op.channel, op.id)
    ensures var (records', ok) := Apply(records, op);
      && Linked(records', log + [Entry(op, ok)], op.channel, op.id)
      && (ok <==> Deserves(log, op.channel, op.id, op.code, op.now))
  {
    var (records', ok) := Apply(records, op);
    var e := Entry(op, ok);
    var key := KeyOf(op.channel, op.id);
    PendingAppends(log, e, op.channel, op.id);
    KeepsGuesses(log, e, op.channel, op.id);
    forall k' | Pending(log, k', op.channel, op.id) ensures k' == k { OnePending(log, k, k', op.channel, op.id); }
    SameMessage(op.channel, op.id, op.code, log[k].op.code);
    if key in records' {
      assert LinkedAt(records'[key], log + [e], k, op.channel, op.id);
    }
  }

  lemma SameMessage(channel: Channel, id: string, code: string, code': string)
    ensures Message(channel, id, code) == Message(channel, id, code') <==> code == code'
  {
    var prefix := channel.Name() + "\n" + id + "\n";
    assert Message(channel, id, code)[|prefix|..] == code && Message(channel, id, code')[|prefix|..] == code';
  }

  lemma {:induction false} RunsAreLinked(ops: seq<Op>, channel: Channel, id: string)
    ensures Linked(Run(ops).0, Run(ops).1, channel, id)
    decreases |ops|
  {
    if ops != [] {
      var op := ops[|ops| - 1];
      var (records, log) := Run(ops[..|ops| - 1]);
      RunsAreLinked(ops[..|ops| - 1], channel, id);
      if op.channel != channel || op.id != id {
        OtherLinked(records, log, op, channel, id);
      } else if op.Request? {
        RequestLinked(records, log, op);
      } else {
        ConfirmLinked(records, log, op);
      }
    }
  }

  /**
   * After any operations in sequence, a confirmation succeeds exactly when the
   * code is the last one sent to that channel and identifier, is at most ten
   * minutes old, has not been confirmed, and fewer than five six-digit guesses
   * were made at it in time.
   */
  lemma ConfirmsExactlyTheLastCode(ops: seq<Op>, channel: Channel, id: string, code: string, now: int)
    ensures CheckCode(Run(ops).0, channel, id, code, now).1 <==> Deserves(Run(ops).1, channel, id, code, now)
  {
    RunsAreLinked(ops, channel, id);
    ConfirmLinked(Run(ops).0, Run(ops).1, Confirm(channel, id, code, now));
  }

  // Send bounds for the service ----------------------------------------------------------

  predicate About(op: Op, channel: Channel, id: string) {
    op.channel == channel && op.id == id
  }

  /** No operation deletes this identifier's record. */
  predicate NoDeletion(records: Records, ops: seq<Op>, channel: Channel, id: string)
    decreases |ops|
  {
    ops == [] ||
    var after := Apply(records, ops[0]).0;
    (KeyOf(channel, id) in records ==> KeyOf(channel, id) in after) && NoDeletion(after, ops[1..], channel, id)
  }

  /** The record of the code an operation sends to this identifier, if it sends one. */
  function CodeSent(records: Records, op: Op, channel: Channel, id: string): seq<OtpRecord> {
    var after := Apply(records, op);
    if op.Request? && About(op, channel, id) && after.1 && KeyOf(channel, id) in after.0
      then [after.0[KeyOf(channel, id)]] else []
  }

  function CodesSent(records: Records, ops: seq<Op>, channel: Channel, id: string): seq<OtpRecord>
    decreases |ops|
  {
    if ops == [] then []
      else CodeSent(records, ops[0], channel, id) + CodesSent(Apply(records, ops[0]).0, ops[1..], channel, id)
  }

  /** What an operation means for this identifier's limiter. */
  function SeenAs(records: Records, op: Op, channel: Channel, id: string): seq<Event> {
    if !About(op, channel, id) then []
    else if op.Request? then [Ask(op.now, Hmac(Message(channel, id, op.code)))]
    else if Apply(records, op).0 != records then [Guess] else []
  }

  function Seen(records: Records, ops: seq<Op>, channel: Channel, id: string): seq<Event>
    decreases |ops|
  {
    if ops == [] then []
      else SeenAs(records, ops[0], channel, id) + Seen(Apply(records, ops[0]).0, ops[1..], channel, id)
  }

  lemma OneSeen(records: Records, op: Op, channel: Channel, id: string, rest: seq<Event>)
    requires KeyOf(channel, id) in records ==> KeyOf(channel, id) in Apply(records, op).0
    ensures var key := KeyOf(channel, id);
      Sends(Find(records, key), SeenAs(records, op, channel, id) + rest)
        == CodeSent(records, op, channel, id) + Sends(Find(Apply(records, op).0, key), rest)
  {
    if KeyOf(op.channel, op.id) == KeyOf(channel, id) { KeyInjective(op.channel, op.id, channel, id); }
    var seen := SeenAs(records, op, channel, id);
    if seen == [] {
      assert seen + rest == rest;
    } else {
      assert (seen + rest)[0] == seen[0] && (seen + rest)[1..] == rest;
    }
  }

  lemma {:induction false} SentIsAccepted(records: Records, ops: seq<Op>, channel: Channel, id: string)
    requires NoDeletion(records, ops, channel, id)
    ensures CodesSent(records, ops, channel, id)
            == Sends(Find(records, KeyOf(channel, id)), Seen(records, ops, channel, id))
    decreases |ops|
  {
    if ops != [] {
      var after := Apply(records, ops[0]).0;
      SentIsAccepted(after, ops[1..], channel, id);
      OneSeen(records, ops[0], channel, id, Seen(after, ops[1..], channel, id));
    }
  }

  /**
   * From any store without a record for the identifier, over any operations that
   * delete none: at least a minute between codes, at most five in each fixed
   * window, at most nine in any hour.
   */
  lemma CodesAreRateLimited(records: Records, ops: seq<Op>, channel: Channel, id: string, start: int)
    requires KeyOf(channel, id) !in records && NoDeletion(records, ops, channel, id)
    ensures var sends := CodesSent(records, ops, channel, id);
      && (forall k :: 0 < k < |sends| ==> sends[k].issuedAt >= sends[k - 1].issuedAt + OTP_RESEND_COOLDOWN_MS)
      && (forall w :: |InWindowOf(sends, w)| <= OTP_MAX_SENDS_PER_WINDOW)
      && |InHour(sends, start)| <= 9
  {
    SentIsAccepted(records, ops, channel, id);
    SendBounds(Seen(records, ops, channel, id), start);
  }
}
