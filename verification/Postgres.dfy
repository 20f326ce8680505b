/** Transactions over one current client: nested ones join, and the outermost one opens and closes a single client. */
module Postgres {
  import opened Prelude

  /** The statements the package itself issues, and an app's own. */
  datatype Statement = EnsureTable | SelectIds | InsertId(id: string) | Sql(text: string)

  /** What a database holds: the app statements that took effect, and the migration ids recorded. */
  datatype Db = Db(effects: seq<string>, ids: set<string>)

  /** The work a caller may pass: queries, transactions, throws and catches in sequence. */
  datatype Program =
    | Done
    | Query(statement: Statement)
    | Seq(first: Program, second: Program)
    | Transaction(work: Program)
    | Throw(error: string)
    | Catch(body: Program, handler: Program)

  type Client = nat

  datatype Command =
    | Connect
    | Begin(client: Client)
    | Commit(client: Client)
    | Rollback(client: Client)
    | Release(client: Client)
    | Send(on: Option<Client>, statement: Statement)

  /** A call that was made, and whether it succeeded. */
  datatype Entry = Entry(command: Command, ok: bool)

  /**
   * The calls made, the database as others see it, and the open transaction's
   * view of it. Once a statement of the transaction has failed, Postgres refuses
   * the rest of it: the transaction is aborted.
   */
  datatype World = World(log: seq<Entry>, db: Db, open: Option<Db>, aborted: bool)

  datatype Outcome = Returned | Threw(error: string)

  /** Which of the calls made go wrong, and how. */
  type Faults = nat -> Option<string>

  const ABORTED := "current transaction is aborted, commands ignored until end of transaction block"
  const DUPLICATE := "duplicate key value violates unique constraint"

  /** A statement's effect, or why the database refuses it. */
  function Effect(db: Db, s: Statement): Result<Db, string> {
    match s
    case InsertId(id) => if id in db.ids then Err(DUPLICATE) else Ok(db.(ids := db.ids + {id}))
    case Sql(text) => Ok(db.(effects := db.effects + [text]))
    case EnsureTable => Ok(db)
    case SelectIds => Ok(db)
  }

  /** One call: logged, and failing if this one is to fail. */
  function Call(faults: Faults, w: World, c: Command): (World, Outcome) {
    var fault := faults(|w.log|);
    (w.(log := w.log + [Entry(c, fault.None?)]), if fault.Some? then Threw(fault.value) else Returned)
  }

  /** The database as the current client sees it. */
  function Seen(current: Option<Client>, w: World): Db {
    if current.Some? && w.open.Some? then w.open.value else w.db
  }

  /** What the database answers a statement, if the call gets through. */
  function Answer(current: Option<Client>, w: World, s: Statement): Result<Db, string> {
    if current.Some? && w.open.Some? && w.aborted then Err(ABORTED) else Effect(Seen(current, w), s)
  }

  /** A query on the current client, or on the pool when there is none; a failed one aborts its transaction. */
  function Ask(faults: Faults, current: Option<Client>, w: World, s: Statement): (World, Outcome) {
    var fault := faults(|w.log|);
    var answer := if fault.Some? then Err(fault.value) else Answer(current, w, s);
    var logged := w.(log := w.log + [Entry(Send(current, s), answer.Ok?)]);
    if current.Some? && w.open.Some? then
      if answer.Ok? then (logged.(open := Some(answer.value)), Returned)
        else (logged.(aborted := true), Threw(answer.error))
    else
      if answer.Ok? then (logged.(db := answer.value), Returned) else (logged, Threw(answer.error))
  }

  /** Rolls back, ignoring a failure to, and releases the client; nothing of the transaction stays. */
  function GiveUp(faults: Faults, w: World, c: Client): World {
    var rolled := Call(faults, w, Rollback(c)).0;
    World(rolled.log + [Entry(Release(c), true)], rolled.db, None, false)
  }

  /** After a COMMIT that succeeded; of an aborted transaction it keeps nothing, and says nothing. */
  function Keep(w: World, c: Client): World {
    World(w.log + [Entry(Release(c), true)], if w.aborted then w.db else w.open.GetOr(w.db), None, false)
  }

  /** What a BEGIN that succeeded starts from. */
  function Opened(w: World): World {
    w.(open := Some(w.db), aborted := false)
  }

  /** What follows a transaction's work. */
  function Ending(faults: Faults, c: Client, worked: World, done: Outcome): (World, Outcome) {
    if done.Threw? then (GiveUp(faults, worked, c), done) else
    var (committed, o) := Call(faults, worked, Commit(c));
    if o.Threw? then (GiveUp(faults, committed, c), o) else (Keep(committed, c), Returned)
  }

  /** What a program does to the world, given the current client. */
  function Exec(faults: Faults, p: Program, current: Option<Client>, w: World): (World, Outcome)
    decreases p, 0
  {
    match p
    case Done => (w, Returned)
    case Query(s) => Ask(faults, current, w, s)
    case Throw(e) => (w, Threw(e))
    case Seq(first, second) =>
      var (w1, o) := Exec(faults, first, current, w);
      if o.Threw? then (w1, o) else Exec(faults, second, current, w1)
    case Catch(body, handler) =>
      var (w1, o) := Exec(faults, body, current, w);
      if o.Returned? then (w1, o) else Exec(faults, handler, current, w1)
    case Transaction(work) =>
      if current.Some? then Exec(faults, work, current, w) else
      var (connected, o1) := Call(faults, w, Connect);
      if o1.Threw? then (connected, o1) else
      var c := |w.log|;
      var (begun, o2) := Call(faults, connected, Begin(c));
      if o2.Threw? then (GiveUp(faults, begun, c), o2) else
      Begun(faults, work, c, begun)
  }

  /** What follows a BEGIN that succeeded. */
  function Begun(faults: Faults, work: Program, c: Client, begun: World): (World, Outcome)
    decreases work, 1
  {
    var (worked, done) := Exec(faults, work, Some(c), Opened(begun));
    Ending(faults, c, worked, done)
  }

  // Nesting ---------------------------------------------------------------------------------------

  /** The program with every transaction replaced by its work. */
  function Flat(p: Program): Program {
    match p
    case Done => p
    case Query(_) => p
    case Throw(_) => p
    case Seq(first, second) => Seq(Flat(first), Flat(second))
    case Catch(body, handler) => Catch(Flat(body), Flat(handler))
    case Transaction(work) => Flat(work)
  }

  /** Inside a transaction, nested ones change nothing: neither the calls made, nor their effect, nor the outcome. */
  lemma {:induction false} NestedJoin(faults: Faults, p: Program, c: Client, w: World)
    ensures Exec(faults, p, Some(c), w) == Exec(faults, Flat(p), Some(c), w)
    decreases p
  {
    match p
    case Done =>
    case Query(_) =>
    case Throw(_) =>
    case Transaction(work) => NestedJoin(faults, work, c, w);
    case Seq(first, second) =>
      NestedJoin(faults, first, c, w);
      NestedJoin(faults, second, c, Exec(faults, first, Some(c), w).0);
    case Catch(body, handler) =>
      NestedJoin(faults, body, c, w);
      NestedJoin(faults, handler, c, Exec(faults, body, Some(c), w).0);
  }

  /** A transaction around any work is one transaction around its flattened work. */
  lemma TransactionsFlatten(faults: Faults, work: Program, current: Option<Client>, w: World)
    ensures Exec(faults, Transaction(work), current, w) == Exec(faults, Transaction(Flat(work)), current, w)
  {
    if current.Some? {
      NestedJoin(faults, work, current.value, w);
    } else {
      var begun := Call(faults, Call(faults, w, Connect).0, Begin(|w.log|)).0;
      NestedJoin(faults, work, |w.log|, Opened(begun));
    }
  }

  // The order of calls -----------------------------------------------------------------------------

  /** Where a connection is in its life, as an observer of the calls would track it. */
  datatype Phase = Idle | Connected(c: Client) | Working(c: Client) | Failing(c: Client) | Closing(c: Client)

  /**
   * The calls allowed in each phase: one BEGIN per connection, queries only on
   * the client at work, one COMMIT, a ROLLBACK after anything but a COMMIT that
   * succeeded, then one release. `n` counts the calls already made.
   */
  function Track(phase: Phase, e: Entry, n: nat): Option<Phase> {
    match phase
    case Idle =>
      if e.command == Connect then Some(if e.ok then Connected(n) else Idle)
      else if e.command.Send? && e.command.on == None then Some(Idle) else None
    case Connected(c) =>
      if e.command == Begin(c) then Some(if e.ok then Working(c) else Failing(c)) else None
    case Working(c) =>
      if e.command.Send? && e.command.on == Some(c) then Some(Working(c))
      else if e.command == Commit(c) then Some(if e.ok then Closing(c) else Failing(c))
      else if e.command == Rollback(c) then Some(Closing(c)) else None
    case Failing(c) =>
      if e.command == Rollback(c) then Some(Closing(c)) else None
    case Closing(c) =>
      if e.command == Release(c) then Some(Idle) else None
  }

  function TrackAll(phase: Phase, log: seq<Entry>, from: nat): Option<Phase>
    requires from <= |log|
    decreases |log| - from
  {
    if from == |log| then Some(phase) else
    var next := Track(phase, log[from], from);
    if next.None? then None else TrackAll(next.value, log, from + 1)
  }

  /** Tracking a longer log goes on from where tracking its prefix ended. */
  lemma {:induction false} TrackOn(phase: Phase, log: seq<Entry>, longer: seq<Entry>, from: nat, mid: Phase)
    requires from <= |log| <= |longer| && log == longer[..|log|] && TrackAll(phase, log, from) == Some(mid)
    ensures TrackAll(phase, longer, from) == TrackAll(mid, longer, |log|)
    decreases |log| - from
  {
    if from < |log| {
      assert log[from] == longer[from];
      TrackOn(Track(phase, log[from], from).value, log, longer, from + 1, mid);
    }
  }

  function PhaseOf(current: Option<Client>): Phase {
    if current.Some? then Working(current.value) else Idle
  }

  /** From `w`, the calls that led to `w'` take an observer from one phase to the other. */
  ghost predicate Leads(w: World, from: Phase, w': World, to: Phase) {
    |w.log| <= |w'.log| && w'.log[..|w.log|] == w.log && TrackAll(from, w'.log, |w.log|) == Some(to)
  }

  lemma LeadsOn(a: World, p: Phase, b: World, q: Phase, c: World, r: Phase)
    requires Leads(a, p, b, q) && Leads(b, q, c, r)
    ensures Leads(a, p, c, r)
  {
    TrackOn(p, b.log, c.log, |a.log|, q);
    assert c.log[..|a.log|] == b.log[..|a.log|];
  }

  lemma OneCall(w: World, w': World, phase: Phase, e: Entry)
    requires w'.log == w.log + [e] && Track(phase, e, |w.log|).Some?
    ensures Leads(w, phase, w', Track(phase, e, |w.log|).value)
  {
    assert TrackAll(Track(phase, e, |w.log|).value, w'.log, |w.log| + 1) == Some(Track(phase, e, |w.log|).value);
  }

  lemma GivingUpCloses(faults: Faults, w: World, c: Client, phase: Phase)
    requires phase == Working(c) || phase == Failing(c)
    ensures Leads(w, phase, GiveUp(faults, w, c), Idle)
  {
    var rolled := Call(faults, w, Rollback(c)).0;
    OneCall(w, rolled, phase, Entry(Rollback(c), faults(|w.log|).None?));
    OneCall(rolled, GiveUp(faults, w, c), Closing(c), Entry(Release(c), true));
    LeadsOn(w, phase, rolled, Closing(c), GiveUp(faults, w, c), Idle);
  }

  /**
   * Every run of every program makes its calls in the order an observer allows
   * and ends where it began: outside a transaction with every connection
   * released once, inside one with the client still at work.
   */
  lemma {:induction false} CallsInOrder(faults: Faults, p: Program, current: Option<Client>, w: World)
    ensures Leads(w, PhaseOf(current), Exec(faults, p, current, w).0, PhaseOf(current))
    decreases p, 0
  {
    var w' := Exec(faults, p, current, w).0;
    match p
    case Done => assert w.log[..|w.log|] == w.log;
    case Throw(_) => assert w.log[..|w.log|] == w.log;
    case Query(s) => OneCall(w, w', PhaseOf(current), w'.log[|w.log|]);
    case Seq(first, second) =>
      var w1 := Exec(faults, first, current, w).0;
      CallsInOrder(faults, first, current, w);
      CallsInOrder(faults, second, current, w1);
      LeadsOn(w, PhaseOf(current), w1, PhaseOf(current), Exec(faults, second, current, w1).0, PhaseOf(current));
    case Catch(body, handler) =>
      var w1 := Exec(faults, body, current, w).0;
      CallsInOrder(faults, body, current, w);
      CallsInOrder(faults, handler, current, w1);
      LeadsOn(w, PhaseOf(current), w1, PhaseOf(current), Exec(faults, handler, current, w1).0, PhaseOf(current));
    case Transaction(work) =>
      if current.Some? {
        CallsInOrder(faults, work, current, w);
      } else {
        TransactionInOrder(faults, work, w);
      }
  }

  lemma {:induction false} TransactionInOrder(faults: Faults, work: Program, w: World)
    ensures Leads(w, Idle, Exec(faults, Transaction(work), None, w).0, Idle)
    decreases work, 2
  {
    var (connected, o1) := Call(faults, w, Connect);
    var c, w' := |w.log|, Exec(faults, Transaction(work), None, w).0;
    OneCall(w, connected, Idle, Entry(Connect, faults(c).None?));
    if o1.Returned? {
      var (begun, o2) := Call(faults, connected, Begin(c));
      OneCall(connected, begun, Connected(c), Entry(Begin(c), faults(c + 1).None?));
      if o2.Threw? {
        GivingUpCloses(faults, begun, c, Failing(c));
        LeadsOn(connected, Connected(c), begun, Failing(c), w', Idle);
      } else {
        BegunInOrder(faults, work, c, begun);
        LeadsOn(connected, Connected(c), begun, Working(c), w', Idle);
      }
      LeadsOn(w, Idle, connected, Connected(c), w', Idle);
    }
  }

  lemma {:induction false} BegunInOrder(faults: Faults, work: Program, c: Client, begun: World)
    ensures Leads(begun, Working(c), Begun(faults, work, c, begun).0, Idle)
    decreases work, 1
  {
    var opening := Opened(begun);
    var (worked, done) := Exec(faults, work, Some(c), opening);
    CallsInOrder(faults, work, Some(c), opening);
    EndingInOrder(faults, c, worked, done);
    LeadsOn(opening, Working(c), worked, Working(c), Begun(faults, work, c, begun).0, Idle);
  }

  lemma EndingInOrder(faults: Faults, c: Client, worked: World, done: Outcome)
    ensures Leads(worked, Working(c), Ending(faults, c, worked, done).0, Idle)
  {
    var w' := Ending(faults, c, worked, done).0;
    if done.Threw? {
      GivingUpCloses(faults, worked, c, Working(c));
    } else {
      var (committed, o) := Call(faults, worked, Commit(c));
      OneCall(worked, committed, Working(c), Entry(Commit(c), faults(|worked.log|).None?));
      if o.Threw? {
        GivingUpCloses(faults, committed, c, Failing(c));
        LeadsOn(worked, Working(c), committed, Failing(c), w', Idle);
      } else {
        OneCall(committed, w', Closing(c), Entry(Release(c), true));
        LeadsOn(worked, Working(c), committed, Closing(c), w', Idle);
      }
    }
  }

  // Outcome and effect ------------------------------------------------------------------------------

  /** How often a call was made. */
  function Count(log: seq<Entry>, c: Command): nat {
    if log == [] then 0 else
    var n := |log| - 1;
    Count(log[..n], c) + if log[n].command == c then 1 else 0
  }

  lemma CountOne(log: seq<Entry>, e: Entry, c: Command)
    ensures Count(log + [e], c) == Count(log, c) + if e.command == c then 1 else 0
  {
    assert (log + [e])[..|log|] == log;
  }

  lemma GiveUpCounts(faults: Faults, w: World, k: Client, c: Command)
    ensures Count(GiveUp(faults, w, k).log, c)
            == Count(w.log, c) + (if c == Rollback(k) || c == Release(k) then 1 else 0)
  {
    var rolled := Call(faults, w, Rollback(k)).0;
    CountOne(w.log, Entry(Rollback(k), faults(|w.log|).None?), c);
    CountOne(rolled.log, Entry(Release(k), true), c);
  }

  /** Inside a transaction a program only sends queries, and the database others see does not change. */
  lemma {:induction false} InsideOnlyQueries(faults: Faults, p: Program, k: Client, w: World, c: Command)
    requires !c.Send?
    ensures var w' := Exec(faults, p, Some(k), w).0;
      Count(w'.log, c) == Count(w.log, c) && (w.open.Some? ==> w'.open.Some? && w'.db == w.db)
    decreases p
  {
    match p
    case Done =>
    case Query(s) => CountOne(w.log, Exec(faults, p, Some(k), w).0.log[|w.log|], c);
    case Throw(_) =>
    case Transaction(work) => InsideOnlyQueries(faults, work, k, w, c);
    case Seq(first, second) =>
      InsideOnlyQueries(faults, first, k, w, c);
      InsideOnlyQueries(faults, second, k, Exec(faults, first, Some(k), w).0, c);
    case Catch(body, handler) =>
      InsideOnlyQueries(faults, body, k, w, c);
      InsideOnlyQueries(faults, handler, k, Exec(faults, body, Some(k), w).0, c);
  }

  /** The world in which a transaction's work starts, if its connection and BEGIN succeed. */
  function Start(w: World): World {
    World(w.log + [Entry(Connect, true)] + [Entry(Begin(|w.log|), true)], w.db, Some(w.db), false)
  }

  predicate Starts(faults: Faults, w: World) {
    faults(|w.log|).None? && faults(|w.log| + 1).None?
  }

  /** What a transaction's ending adds to the count of a call, by how its work and its COMMIT went. */
  function EndingCount(k: Client, c: Command, done: bool, committed: bool): nat {
    if c == Commit(k) then (if done then 1 else 0)
    else if c == Rollback(k) then (if committed then 0 else 1)
    else if c == Release(k) then 1 else 0
  }

  lemma EndingCalls(faults: Faults, k: Client, worked: World, done: Outcome, c: Command)
    requires c == Begin(k) || c == Commit(k) || c == Rollback(k) || c == Release(k)
    ensures var (w', o) := Ending(faults, k, worked, done);
      Count(w'.log, c) == Count(worked.log, c) + EndingCount(k, c, done.Returned?, o.Returned?)
  {
    if done.Threw? {
      GiveUpCounts(faults, worked, k, c);
    } else {
      var (committed, o) := Call(faults, worked, Commit(k));
      CountOne(worked.log, Entry(Commit(k), faults(|worked.log|).None?), c);
      if o.Threw? {
        GiveUpCounts(faults, committed, k, c);
      } else {
        CountOne(committed.log, Entry(Release(k), true), c);
      }
    }
  }

  /** A transaction, stage by stage: no connection, no BEGIN, or its work and what follows it. */
  lemma TransactionStages(faults: Faults, work: Program, w: World)
    ensures var k := |w.log|;
      var connected := w.(log := w.log + [Entry(Connect, faults(k).None?)]);
      var begun := w.(log := connected.log + [Entry(Begin(k), faults(k + 1).None?)]);
      Exec(faults, Transaction(work), None, w) ==
        if faults(k).Some? then (connected, Threw(faults(k).value))
        else if faults(k + 1).Some? then (GiveUp(faults, begun, k), Threw(faults(k + 1).value))
        else var (worked, done) := Exec(faults, work, Some(k), Start(w)); Ending(faults, k, worked, done)
  {
  }

  /** What a transaction adds to the count of each of its own calls. */
  lemma TransactionCalls(faults: Faults, work: Program, w: World, c: Command)
    requires var k := |w.log|; c == Begin(k) || c == Commit(k) || c == Rollback(k) || c == Release(k)
    ensures var k := |w.log|;
      var (w', o) := Exec(faults, Transaction(work), None, w);
      Count(w'.log, c) - Count(w.log, c) ==
        if faults(k).Some? then 0
        else if c == Begin(k) then 1
        else EndingCount(k, c, Starts(faults, w) && Exec(faults, work, Some(k), Start(w)).1.Returned?, o.Returned?)
  {
    var k := |w.log|;
    TransactionStages(faults, work, w);
    CountOne(w.log, Entry(Connect, faults(k).None?), c);
    CountOne(w.log + [Entry(Connect, true)], Entry(Begin(k), faults(k + 1).None?), c);
    if faults(k).None? && faults(k + 1).Some? {
      GiveUpCounts(faults, w.(log := w.log + [Entry(Connect, true)] + [Entry(Begin(k), false)]), k, c);
    } else if faults(k).None? {
      var (worked, done) := Exec(faults, work, Some(k), Start(w));
      InsideOnlyQueries(faults, work, k, Start(w), c);
      EndingCalls(faults, k, worked, done, c);
    }
  }

  lemma EndingEffect(faults: Faults, k: Client, worked: World, done: Outcome)
    requires worked.open.Some?
    ensures var (w', o) := Ending(faults, k, worked, done);
      && (o.Returned? <==> done.Returned? && faults(|worked.log|).None?)
      && w'.db == (if o.Returned? && !worked.aborted then worked.open.value else worked.db)
      && w'.open.None?
      && (done.Threw? ==> o == done)
      && (done.Returned? && faults(|worked.log|).Some? ==> o == Threw(faults(|worked.log|).value))
  {
  }

  /** How many of the calls failed. */
  function Failures(log: seq<Entry>): nat {
    if log == [] then 0 else
    var n := |log| - 1;
    Failures(log[..n]) + if log[n].ok then 0 else 1
  }

  lemma FailuresOne(log: seq<Entry>, e: Entry)
    ensures Failures(log + [e]) == Failures(log) + if e.ok then 0 else 1
  {
    assert (log + [e])[..|log|] == log;
  }

  /** A transaction is aborted exactly when a call failed in it, whether or not the program caught the error. */
  lemma {:induction false} AbortedIffFailed(faults: Faults, p: Program, k: Client, w: World)
    requires w.open.Some?
    ensures var w' := Exec(faults, p, Some(k), w).0;
      && w'.open.Some? && Failures(w'.log) >= Failures(w.log)
      && (w'.aborted <==> w.aborted || Failures(w'.log) > Failures(w.log))
    decreases p
  {
    match p
    case Done =>
    case Query(s) => FailuresOne(w.log, Exec(faults, p, Some(k), w).0.log[|w.log|]);
    case Throw(_) =>
    case Transaction(work) => AbortedIffFailed(faults, work, k, w);
    case Seq(first, second) =>
      AbortedIffFailed(faults, first, k, w);
      AbortedIffFailed(faults, second, k, Exec(faults, first, Some(k), w).0);
    case Catch(body, handler) =>
      AbortedIffFailed(faults, body, k, w);
      AbortedIffFailed(faults, handler, k, Exec(faults, body, Some(k), w).0);
  }

  /**
   * A transaction that gets a connection makes one BEGIN and one release; it asks
   * for a COMMIT, once, exactly when its work started and returned, and for a
   * ROLLBACK, once, exactly when it does not return.
   */
  lemma TransactionsCallOnce(faults: Faults, work: Program, w: World)
    ensures var k := |w.log|;
      var (w', o) := Exec(faults, Transaction(work), None, w);
      var done := Exec(faults, work, Some(k), Start(w)).1;
      var got := if faults(k).None? then 1 else 0;
      && Count(w'.log, Begin(k)) - Count(w.log, Begin(k)) == got
      && Count(w'.log, Release(k)) - Count(w.log, Release(k)) == got
      && Count(w'.log, Commit(k)) - Count(w.log, Commit(k)) == (if Starts(faults, w) && done.Returned? then 1 else 0)
      && Count(w'.log, Rollback(k)) - Count(w.log, Rollback(k)) == (if o.Returned? then 0 else got)
  {
    var k := |w.log|;
    TransactionCalls(faults, work, w, Begin(k));
    TransactionCalls(faults, work, w, Commit(k));
    TransactionCalls(faults, work, w, Rollback(k));
    TransactionCalls(faults, work, w, Release(k));
    TransactionStages(faults, work, w);
  }

  /**
   * A transaction returns exactly when its work started and returned and its
   * COMMIT succeeded. The work's whole effect then stays if and only if no query
   * failed in it, even one whose error the work caught; otherwise, and whenever
   * the transaction throws, nothing of the work stays. An error of the work is
   * the one thrown.
   */
  lemma TransactionsAreAtomic(faults: Faults, work: Program, w: World)
    requires w.open.None?
    ensures var (w', o) := Exec(faults, Transaction(work), None, w);
      var (worked, done) := Exec(faults, work, Some(|w.log|), Start(w));
      var failed := Failures(worked.log) > Failures(Start(w).log);
      && (o.Returned? <==> Starts(faults, w) && done.Returned? && faults(|worked.log|).None?)
      && worked.open.Some?
      && w'.db == (if o.Returned? && !failed then worked.open.value else w.db)
      && w'.open.None?
      && (Starts(faults, w) && done.Threw? ==> o == done)
  {
    TransactionStages(faults, work, w);
    InsideOnlyQueries(faults, work, |w.log|, Start(w), Connect);
    AbortedIffFailed(faults, work, |w.log|, Start(w));
    var (worked, done) := Exec(faults, work, Some(|w.log|), Start(w));
    EndingEffect(faults, |w.log|, worked, done);
  }

  /**
   * What a transaction throws is the first failure of connecting, beginning, the
   * work or committing, never the ROLLBACK's.
   */
  lemma FirstFailureIsThrown(faults: Faults, work: Program, w: World)
    ensures var k, o := |w.log|, Exec(faults, Transaction(work), None, w).1;
      var (worked, done) := Exec(faults, work, Some(k), Start(w));
      o == if faults(k).Some? then Threw(faults(k).value)
           else if faults(k + 1).Some? then Threw(faults(k + 1).value)
           else if done.Threw? then done
           else if faults(|worked.log|).Some? then Threw(faults(|worked.log|).value)
           else Returned
  {
    TransactionStages(faults, work, w);
  }

  lemma EndingLog(faults: Faults, k: Client, worked: World, done: Outcome)
    requires Ending(faults, k, worked, done).1.Returned?
    ensures done.Returned?
    ensures Ending(faults, k, worked, done).0.log == worked.log + [Entry(Commit(k), true)] + [Entry(Release(k), true)]
  {
  }

  /** The calls of a transaction that returns: its own around the work's. */
  lemma ReturningLog(faults: Faults, work: Program, w: World)
    requires Exec(faults, Transaction(work), None, w).1.Returned?
    ensures var k := |w.log|;
      var (worked, done) := Exec(faults, work, Some(k), Start(w));
      && done.Returned? && Start(w).log == w.log + [Entry(Connect, true)] + [Entry(Begin(k), true)]
      && Exec(faults, Transaction(work), None, w).0.log
         == worked.log + [Entry(Commit(k), true)] + [Entry(Release(k), true)]
  {
    var (worked, done) := Exec(faults, work, Some(|w.log|), Start(w));
    TransactionStages(faults, work, w);
    EndingLog(faults, |w.log|, worked, done);
  }

  /**
   * A failure the work catches undoes the work silently: the transaction
   * returns, its COMMIT succeeds, and nothing stays.
   */
  lemma CaughtFailureUndoesAll(w: World, text: string, bad: string)
    returns (faults: Faults, work: Program)
    requires w.open.None?
    ensures work == Seq(Query(Sql(text)), Catch(Query(Sql(bad)), Done))
    ensures var (w', o) := Exec(faults, Transaction(work), None, w);
      && o == Returned && w'.db == w.db
      && Exec(faults, work, Some(|w.log|), Start(w)).0.open == Some(w.db.(effects := w.db.effects + [text]))
  {
    var at := |w.log| + 3;
    faults := n => if n == at then Some("syntax error") else None;
    work := Seq(Query(Sql(text)), Catch(Query(Sql(bad)), Done));
    var k, start := |w.log|, Start(w);
    var (first, o1) := Ask(faults, Some(k), start, Sql(text));
    assert Exec(faults, Query(Sql(text)), Some(k), start) == (first, Returned);
    var (second, o2) := Ask(faults, Some(k), first, Sql(bad));
    assert Exec(faults, Query(Sql(bad)), Some(k), first) == (second, o2) && o2.Threw?;
    assert Exec(faults, Done, Some(k), second) == (second, Returned);
    assert Exec(faults, Catch(Query(Sql(bad)), Done), Some(k), first) == (second, Returned);
    TransactionStages(faults, work, w);
  }

  // The adapter --------------------------------------------------------------------------------------

  /** `tx` is the client of the transaction the caller is in, if any. */
  class PostgresDatabase {
    const faults: Faults
    var world: World
    var tx: Option<Client>

    constructor (start: World, f: Faults)
      ensures world == start && faults == f && tx == None
    {
      world, faults, tx := start, f, None;
    }

    method Send(c: Command) returns (o: Outcome)
      modifies this`world
      ensures (world, o) == Call(faults, old(world), c)
    {
      var (next, outcome) := Call(faults, world, c);
      world, o := next, outcome;
    }

    /**
     * A query on the caller's transaction, if there is one that is open, else on
     * the pool. It logs one call, and changes no more than what that client sees;
     * a failed one changes nothing but that its transaction is aborted.
     */
    method Query(s: Statement) returns (o: Outcome, ids: set<string>)
      modifies this`world
      ensures world.log == old(world).log + [Entry(Command.Send(tx, s), o.Returned?)]
      ensures o.Returned? <==> faults(|old(world).log|).None? && Answer(tx, old(world), s).Ok?
      ensures o.Threw? && faults(|old(world).log|).None? ==> Err(o.error) == Answer(tx, old(world), s)
      ensures o.Threw? && faults(|old(world).log|).Some? ==> Some(o.error) == faults(|old(world).log|)
      ensures o.Threw? ==> world.db == old(world).db && world.open == old(world).open
      ensures o.Returned? ==> Seen(tx, world) == Answer(tx, old(world), s).value && world.aborted == old(world).aborted
      ensures tx.Some? && old(world).open.Some? ==>
              world.db == old(world).db && world.open.Some? && (o.Threw? ==> world.aborted)
      ensures tx.None? || old(world).open.None? ==> world.open == old(world).open && world.aborted == old(world).aborted
      ensures s == SelectIds ==> ids == Seen(tx, old(world)).ids
      ensures (world, o) == Ask(faults, tx, old(world), s)
    {
      ids := if s == SelectIds then Seen(tx, world).ids else {};
      var fault := faults(|world.log|);
      var answer := if fault.Some? then Err(fault.value) else Answer(tx, world, s);
      world := world.(log := world.log + [Entry(Command.Send(tx, s), answer.Ok?)]);
      if tx.Some? && world.open.Some? {
        world := if answer.Ok? then world.(open := Some(answer.value)) else world.(aborted := true);
      } else if answer.Ok? {
        world := world.(db := answer.value);
      }
      o := if answer.Ok? then Returned else Threw(answer.error);
    }

    /** The caller's transaction is current again afterwards, however the work ends. */
    method Transaction(work: Program) returns (o: Outcome)
      modifies this
      ensures (world, o) == Exec(faults, Program.Transaction(work), old(tx), old(world)) && tx == old(tx)
      decreases work, 1
    {
      if tx.Some? {
        o := Run(work);
        return;
      }
      var client := |world.log|;
      o := Send(Connect);
      if o.Threw? { return; }
      o := Send(Begin(client));
      if o.Returned? {
        world, tx := Opened(world), Some(client);
        o := Run(work);
        tx := None;
        if o.Returned? { o := Send(Commit(client)); }
      }
      if o.Threw? {
        var ignored := Send(Rollback(client));
        world := world.(open := None, aborted := false);
      } else {
        world := world.(db := if world.aborted then world.db else world.open.GetOr(world.db), open := None,
          aborted := false);
      }
      world := world.(log := world.log + [Entry(Release(client), true)]);
    }

    /** Runs the caller's work. */
    method Run(p: Program) returns (o: Outcome)
      modifies this
      ensures (world, o) == Exec(faults, p, old(tx), old(world)) && tx == old(tx)
      decreases p, 0
    {
      match p
      case Done => o := Returned;
      case Throw(e) => o := Threw(e);
      case Query(s) =>
        var outcome, ids := Query(s);
        o := outcome;
      case Seq(first, second) =>
        o := Run(first);
        if o.Returned? { o := Run(second); }
      case Catch(body, handler) =>
        o := Run(body);
        if o.Threw? { o := Run(handler); }
      case Transaction(work) => o := Transaction(work);
    }
  }
}
