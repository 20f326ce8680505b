/** How often codes are sent to one identifier. */
module OtpLimiter {
  import opened Prelude
  import opened OtpStore

  datatype IssueError = Cooldown | TooManyCodes

  function InWindow(existing: Option<OtpRecord>, now: int): bool {
    existing.Some? && now - existing.value.windowStart < OTP_SEND_WINDOW_MS
  }

  /** The record a send stores, or why the send is refused. */
  function TryIssue(existing: Option<OtpRecord>, now: int, codeHash: Mac): (r: Result<OtpRecord, IssueError>)
    ensures r.Ok? ==> r.value.issuedAt == now && r.value.attempts == 0 && r.value.codeHash == codeHash
    ensures r.Ok? ==> r.value.windowStart <= now < r.value.windowStart + OTP_SEND_WINDOW_MS || existing.Some?
  {
    var sent := if InWindow(existing, now) then existing.value.sendCount else 0;
    if existing.Some? && now - existing.value.issuedAt < OTP_RESEND_COOLDOWN_MS then Err(Cooldown)
    else if sent >= OTP_MAX_SENDS_PER_WINDOW then Err(TooManyCodes)
    else Ok(OtpRecord(codeHash, now + OTP_TTL_MS, now, 0,
      if InWindow(existing, now) then existing.value.windowStart else now, sent + 1))
  }

  /**
   * When a request is sent, and what is stored then. It is refused within a
   * minute of the last send, and after that if the window of an hour that the
   * record counts in still runs and has had its five sends; a send outside the
   * window starts the next one.
   */
  lemma SentIff(existing: Option<OtpRecord>, now: int, codeHash: Mac)
    ensures var r := TryIssue(existing, now, codeHash);
      var cooling := existing.Some? && now < existing.value.issuedAt + 60000;
      var counting := existing.Some? && now < existing.value.windowStart + 3600000;
      && (r == Err(Cooldown) <==> cooling)
      && (r == Err(TooManyCodes) <==> !cooling && counting && existing.value.sendCount >= 5)
      && (r.Ok? ==>
         r.value == OtpRecord(codeHash := codeHash, expiresAt := now + 600000, issuedAt := now, attempts := 0,
                                 windowStart := if counting then existing.value.windowStart else now,
                                 sendCount := if counting then existing.value.sendCount + 1 else 1))
  {
  }

  /** What happens to one identifier's record between deletions: a request for a code, or a guess at one. */
  datatype Event = Ask(now: int, codeHash: Mac) | Guess

  function Step(r: Option<OtpRecord>, e: Event): Option<OtpRecord> {
    match e
    case Ask(now, codeHash) => (match TryIssue(r, now, codeHash) case Ok(rec) => Some(rec) case Err(_) => r)
    case Guess => if r.Some? then Some(r.value.(attempts := r.value.attempts + 1)) else None
  }

  /** The records of the accepted sends, in order. */
  function Sends(r: Option<OtpRecord>, events: seq<Event>): seq<OtpRecord>
    decreases |events|
  {
    if events == [] then [] else
    var e := events[0];
    (if e.Ask? && TryIssue(r, e.now, e.codeHash).Ok? then [TryIssue(r, e.now, e.codeHash).value] else [])
    + Sends(Step(r, e), events[1..])
  }

  predicate First(a: OtpRecord) {
    a.windowStart == a.issuedAt && a.sendCount == 1
  }

  /** How one accepted send follows another. */
  predicate Follows(a: OtpRecord, b: OtpRecord) {
    && b.issuedAt >= a.issuedAt + OTP_RESEND_COOLDOWN_MS
    && if b.issuedAt < a.windowStart + OTP_SEND_WINDOW_MS
       then b.windowStart == a.windowStart && b.sendCount == a.sendCount + 1 <= OTP_MAX_SENDS_PER_WINDOW
       else First(b)
  }

  predicate Counted(a: OtpRecord) {
    && a.windowStart <= a.issuedAt < a.windowStart + OTP_SEND_WINDOW_MS
    && 1 <= a.sendCount <= OTP_MAX_SENDS_PER_WINDOW
    && (a.sendCount == 1 ==> First(a))
  }

  predicate Spaced(sends: seq<OtpRecord>) {
    && (forall k :: 0 <= k < |sends| ==> Counted(sends[k]))
    && (forall k :: 0 < k < |sends| ==> Follows(sends[k - 1], sends[k]))
  }

  /** The sends from a record on continue that record. */
  lemma {:induction false} SendsFollow(r: Option<OtpRecord>, events: seq<Event>)
    requires r.Some? ==> Counted(r.value)
    ensures var sends := Sends(r, events);
      && Spaced(sends)
      && (|sends| > 0 ==> if r.Some? then Follows(r.value, sends[0]) else First(sends[0]))
    decreases |events|
  {
    if events != [] {
      SendsFollow(Step(r, events[0]), events[1..]);
    }
  }

  lemma {:induction false} Ordered(sends: seq<OtpRecord>, i: nat, j: nat)
    requires Spaced(sends) && i <= j < |sends|
    ensures sends[j].issuedAt >= sends[i].issuedAt + (j - i) * OTP_RESEND_COOLDOWN_MS
  {
    if i < j {
      Ordered(sends, i, j - 1);
      assert Follows(sends[j - 1], sends[j]);
    }
  }

  /** A window's sends are numbered, so a new window starts within the next `5 - count` sends. */
  lemma {:induction false} NextWindow(sends: seq<OtpRecord>, i: nat, j: nat) returns (k: nat)
    requires Spaced(sends) && i <= j < |sends|
    requires sends[j].windowStart == sends[i].windowStart && sends[j].sendCount == sends[i].sendCount + (j - i)
    requires i + OTP_MAX_SENDS_PER_WINDOW + 1 - sends[i].sendCount < |sends|
    ensures i < k <= i + OTP_MAX_SENDS_PER_WINDOW + 1 - sends[i].sendCount
    ensures First(sends[k]) && sends[k].issuedAt >= sends[i].windowStart + OTP_SEND_WINDOW_MS
    decreases |sends| - j
  {
    assert Follows(sends[j], sends[j + 1]);
    if sends[j + 1].windowStart == sends[j].windowStart && sends[j + 1].sendCount == sends[j].sendCount + 1 {
      k := NextWindow(sends, i, j + 1);
    } else {
      k := j + 1;
    }
  }

  /** Ten accepted sends never fit in less than an hour. */
  lemma TenSendsTakeAnHour(sends: seq<OtpRecord>, i: nat)
    requires Spaced(sends) && i + 9 < |sends|
    ensures sends[i + 9].issuedAt >= sends[i].issuedAt + OTP_SEND_WINDOW_MS
  {
    var k := NextWindow(sends, i, i);
    if sends[i].sendCount == 1 {
      Ordered(sends, k, i + 9);
    } else {
      var m := NextWindow(sends, k, k);
      Ordered(sends, i, k);
      Ordered(sends, m, i + 9);
    }
  }

  /** The positions of the accepted sends in the hour from `start`. */
  function InHour(sends: seq<OtpRecord>, start: int): set<nat> {
    set k: nat | k < |sends| && start <= sends[k].issuedAt < start + OTP_SEND_WINDOW_MS
  }

  lemma {:induction false} WithinRange(s: set<nat>, m: nat, n: nat)
    requires forall k :: k in s ==> m <= k < m + n
    ensures |s| <= n
  {
    if n != 0 {
      var last := m + n - 1;
      WithinRange(s - {last}, m, n - 1);
    }
  }

  lemma {:induction false} Least(s: set<nat>) returns (m: nat)
    requires s != {}
    ensures m in s && forall k :: k in s ==> m <= k
  {
    var x :| x in s;
    if s == {x} {
      m := x;
    } else {
      var y := Least(s - {x});
      m := if x < y then x else y;
      assert forall k :: k in s ==> k == x || k in s - {x};
    }
  }

  /** Positions less than `n` apart are at most `n` many. */
  lemma Clustered(s: set<nat>, n: nat)
    requires forall a, b :: a in s && b in s ==> b < a + n
    ensures |s| <= n
  {
    if s != {} {
      var m := Least(s);
      WithinRange(s, m, n);
    }
  }

  lemma {:induction false} WindowsGrow(sends: seq<OtpRecord>, i: nat, j: nat)
    requires Spaced(sends) && i <= j < |sends|
    ensures sends[i].windowStart <= sends[j].windowStart
    ensures sends[i].windowStart == sends[j].windowStart ==> sends[j].sendCount == sends[i].sendCount + (j - i)
  {
    if i < j {
      WindowsGrow(sends, i, j - 1);
      assert Follows(sends[j - 1], sends[j]);
    }
  }

  lemma WindowHoldsFive(sends: seq<OtpRecord>, w: int)
    requires Spaced(sends)
    ensures |InWindowOf(sends, w)| <= OTP_MAX_SENDS_PER_WINDOW
  {
    var s := InWindowOf(sends, w);
    forall a, b | a in s && b in s ensures b < a + OTP_MAX_SENDS_PER_WINDOW {
      if a <= b { WindowsGrow(sends, a, b); }
    }
    Clustered(s, OTP_MAX_SENDS_PER_WINDOW);
  }

  lemma HourHoldsNine(sends: seq<OtpRecord>, start: int)
    requires Spaced(sends)
    ensures |InHour(sends, start)| <= 9
  {
    var s := InHour(sends, start);
    forall a, b | a in s && b in s ensures b < a + 9 {
      if b >= a + 9 {
        TenSendsTakeAnHour(sends, a);
        Ordered(sends, a + 9, b);
      }
    }
    Clustered(s, 9);
  }

  /** The positions of the sends counted in the window from `w`. */
  function InWindowOf(sends: seq<OtpRecord>, w: int): set<nat> {
    set k: nat | k < |sends| && sends[k].windowStart == w
  }

  /**
   * Between deletions, whatever the clock does: accepted sends are at least a
   * minute apart, each window starts with a send and holds at most five, and no
   * hour holds more than nine.
   */
  lemma SendBounds(events: seq<Event>, start: int)
    ensures var sends := Sends(None, events);
      && (forall k :: 0 < k < |sends| ==> sends[k].issuedAt >= sends[k - 1].issuedAt + OTP_RESEND_COOLDOWN_MS)
      && (forall k :: 0 <= k < |sends| ==>
         sends[k].windowStart <= sends[k].issuedAt < sends[k].windowStart + OTP_SEND_WINDOW_MS)
      && (forall w :: |InWindowOf(sends, w)| <= OTP_MAX_SENDS_PER_WINDOW)
      && |InHour(sends, start)| <= 9
  {
    var sends := Sends(None, events);
    SendsFollow(None, events);
    assert forall k :: 0 < k < |sends| ==> Follows(sends[k - 1], sends[k]);
    forall w ensures |InWindowOf(sends, w)| <= OTP_MAX_SENDS_PER_WINDOW { WindowHoldsFive(sends, w); }
    HourHoldsNine(sends, start);
  }

  function SentAt(h: Mac, now: int, windowStart: int, count: int): OtpRecord {
    OtpRecord(h, now + OTP_TTL_MS, now, 0, windowStart, count)
  }

  /** `n` requests a minute apart from `from` on, then `more`. */
  function Minutely(h: Mac, from: int, n: nat, more: seq<Event>): seq<Event>
    decreases n
  {
    if n == 0 then more else [Ask(from, h)] + Minutely(h, from + OTP_RESEND_COOLDOWN_MS, n - 1, more)
  }

  /** A request a minute after the last, in a window with room, is sent. */
  lemma NextIsSent(h: Mac, last: int, w: int, count: int, more: seq<Event>)
    requires w <= last && last + OTP_RESEND_COOLDOWN_MS < w + OTP_SEND_WINDOW_MS
    requires 1 <= count < OTP_MAX_SENDS_PER_WINDOW
    ensures var now := last + OTP_RESEND_COOLDOWN_MS;
      Sends(Some(SentAt(h, last, w, count)), [Ask(now, h)] + more)
        == [SentAt(h, now, w, count + 1)] + Sends(Some(SentAt(h, now, w, count + 1)), more)
  {
    var events := [Ask(last + OTP_RESEND_COOLDOWN_MS, h)] + more;
    assert events[0] == Ask(last + OTP_RESEND_COOLDOWN_MS, h) && events[1..] == more;
  }

  /** `n` sends a minute apart after `last`, then `rest`. */
  predicate MinuteApart(sends: seq<OtpRecord>, last: int, n: nat, rest: seq<OtpRecord>) {
    && |sends| == n + |rest| && sends[n..] == rest
    && (forall k :: 0 <= k < n ==> sends[k].issuedAt == last + (k + 1) * OTP_RESEND_COOLDOWN_MS)
  }

  lemma OneMinuteMore(first: OtpRecord, tail: seq<OtpRecord>, last: int, n: nat, rest: seq<OtpRecord>)
    requires first.issuedAt == last + OTP_RESEND_COOLDOWN_MS
    requires MinuteApart(tail, last + OTP_RESEND_COOLDOWN_MS, n, rest)
    ensures MinuteApart([first] + tail, last, n + 1, rest)
  {
    assert ([first] + tail)[n + 1..] == tail[n..];
  }

  /** Requests a minute apart, early enough in a window with room, are all sent. */
  lemma {:induction false} MinutelySends(h: Mac, last: int, w: int, count: int, n: nat, more: seq<Event>)
    requires w <= last && last + n * OTP_RESEND_COOLDOWN_MS < w + OTP_SEND_WINDOW_MS
    requires 1 <= count && count + n <= OTP_MAX_SENDS_PER_WINDOW
    ensures MinuteApart(Sends(Some(SentAt(h, last, w, count)), Minutely(h, last + OTP_RESEND_COOLDOWN_MS, n, more)),
            last, n,
                        Sends(Some(SentAt(h, last + n * OTP_RESEND_COOLDOWN_MS, w, count + n)), more))
    decreases n
  {
    if n != 0 {
      var now := last + OTP_RESEND_COOLDOWN_MS;
      var later := Minutely(h, now + OTP_RESEND_COOLDOWN_MS, n - 1, more);
      NextIsSent(h, last, w, count, later);
      MinutelySends(h, now, w, count + 1, n - 1, more);
      OneMinuteMore(SentAt(h, now, w, count + 1), Sends(Some(SentAt(h, now, w, count + 1)), later), last, n - 1,
                    Sends(Some(SentAt(h, last + n * OTP_RESEND_COOLDOWN_MS, w, count + n)), more));
    }
  }

  /** A window's first send at `from`, and three or four more at one-minute steps. */
  function Batch(h: Mac, from: int, n: nat, more: seq<Event>): seq<Event> {
    [Ask(from, h)] + Minutely(h, from + OTP_RESEND_COOLDOWN_MS, n, more)
  }

  /** One request, four in the last minutes of its hour, five in the first minutes of the next. */
  function Burst(h: Mac): seq<Event> {
    [Ask(0, h)] + Batch(h, 3360000, 3, Batch(h, 3600000, 4, []))
  }

  /** Nine is reached: the bound on an hour cannot be lowered. */
  lemma NineIsReached(h: Mac)
    ensures |InHour(Sends(None, Burst(h)), 3360000)| == 9
  {
    var late := Batch(h, 3600000, 4, []);
    var early := Batch(h, 3360000, 3, late);
    assert early[1..] == Minutely(h, 3420000, 3, late) && late[1..] == Minutely(h, 3660000, 4, []);
    assert Burst(h)[1..] == early;
    MinutelySends(h, 3360000, 0, 2, 3, late);
    MinutelySends(h, 3600000, 3600000, 1, 4, []);
    var lateSends := Sends(Some(SentAt(h, 3540000, 0, 5)), late);
    var earlySends := Sends(Some(SentAt(h, 0, 0, 1)), early);
    assert |lateSends| == 5 && lateSends[0].issuedAt == 3600000;
    assert forall k :: 1 <= k < 5 ==> lateSends[k] == lateSends[1..][k - 1];
    assert |earlySends| == 9 && earlySends[4..] == lateSends;
    TenTimes(Sends(None, Burst(h)), earlySends, lateSends);
  }

  lemma TenTimes(sends: seq<OtpRecord>, early: seq<OtpRecord>, late: seq<OtpRecord>)
    requires |late| == 5 && |early| == 9 && early[4..] == late && |sends| == 10 && sends[1..] == early
    requires sends[0].issuedAt == 0
    requires forall k :: 0 <= k < 4 ==> early[k].issuedAt == 3360000 + k * OTP_RESEND_COOLDOWN_MS
    requires forall k :: 0 <= k < 5 ==> late[k].issuedAt == 3600000 + k * OTP_RESEND_COOLDOWN_MS
    ensures |InHour(sends, 3360000)| == 9
  {
    assert forall k :: 0 <= k < 5 ==> early[4 + k] == late[k];
    assert InHour(sends, 3360000) == {1, 2, 3, 4, 5, 6, 7, 8, 9};
  }

  /** A request an hour or more after the last accepted send is sent, and starts a new window. */
  lemma QuietHourReopens(r: OtpRecord, now: int, h: Mac)
    requires Counted(r) && now >= r.issuedAt + OTP_SEND_WINDOW_MS
    ensures TryIssue(Some(r), now, h).Ok? && First(TryIssue(Some(r), now, h).value)
  {
  }

  /**
   * Without the "between deletions" the bounds fail: right after a deletion a
   * second code goes out at the same instant.
   */
  lemma DeletionLiftsCooldown(now: int, h: Mac)
    ensures TryIssue(None, now, h).Ok?
    ensures TryIssue(Some(TryIssue(None, now, h).value), now, h) == Err(Cooldown)
  {
  }
}
