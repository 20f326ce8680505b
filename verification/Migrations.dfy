/** Numbered SQL applied in order, each migration in a transaction of its own, resumable after a failure. */
module Migrations {
  import opened Prelude
  import opened Postgres
  import opened Text

  datatype Migration = Migration(id: string, sql: string)

  const NO_ID := "migration id is required"

  /** One migration's statement and its record. */
  function Work(m: Migration): Program {
    Seq(Query(Sql(m.sql)), Query(InsertId(m.id)))
  }

  /** The loop, given the ids recorded when it began. */
  function ApplyEach(faults: Faults, w: World, seen: set<string>, ms: seq<Migration>): (World, Result<nat, string>)
    decreases |ms|
  {
    if ms == [] then (w, Ok(0))
    else if IsBlank(ms[0].id) then (w, Err(NO_ID))
    else if ms[0].id in seen then ApplyEach(faults, w, seen, ms[1..])
    else
      var (w1, o) := Exec(faults, Transaction(Work(ms[0])), None, w);
      if o.Threw? then (w1, Err(o.error)) else
      var (w2, r) := ApplyEach(faults, w1, seen, ms[1..]);
      (w2, if r.Ok? then Ok(r.value + 1) else r)
  }

  function Apply(faults: Faults, w: World, ms: seq<Migration>): (World, Result<nat, string>) {
    var (w1, o1) := Ask(faults, None, w, EnsureTable);
    if o1.Threw? then (w1, Err(o1.error)) else
    var (w2, o2) := Ask(faults, None, w1, SelectIds);
    if o2.Threw? then (w2, Err(o2.error)) else
    ApplyEach(faults, w2, w1.db.ids, ms)
  }

  method ApplyMigrations(db: PostgresDatabase, migrations: seq<Migration>) returns (r: Result<nat, string>)
    requires db.tx.None?
    modifies db
    ensures (db.world, r) == Apply(db.faults, old(db.world), migrations) && db.tx.None?
  {
    var o, none := db.Query(EnsureTable);
    if o.Threw? { return Err(o.error); }
    var applied, seen := db.Query(SelectIds);
    if applied.Threw? { return Err(applied.error); }
    ghost var start := db.world;
    var ran := 0;
    assert migrations[0..] == migrations;
    for i := 0 to |migrations|
      invariant db.tx.None?
      invariant StillToApply(db.faults, start, db.world, seen, migrations, i, ran)
    {
      StillToApplyStep(db.faults, start, db.world, seen, migrations, i, ran);
      var m := migrations[i];
      if IsBlank(m.id) { return Err(NO_ID); }
      if m.id in seen { continue; }
      o := db.Transaction(Work(m));
      if o.Threw? { return Err(o.error); }
      ran := ran + 1;
    }
    return Ok(ran);
  }

  /** After `i` of the migrations and `ran` of them applied, what is left completes the whole. */
  ghost predicate StillToApply(faults: Faults, start: World, now: World, seen: set<string>, ms: seq<Migration>,
          i: nat, ran: nat)
    requires i <= |ms|
  {
    var (w, all) := ApplyEach(faults, start, seen, ms);
    var (w', rest) := ApplyEach(faults, now, seen, ms[i..]);
    w == w' && all == if rest.Ok? then Ok(ran + rest.value) else rest
  }

  lemma StillToApplyStep(faults: Faults, start: World, now: World, seen: set<string>, ms: seq<Migration>, i: nat,
          ran: nat)
    requires i < |ms| && StillToApply(faults, start, now, seen, ms, i, ran)
    ensures var (w, all) := ApplyEach(faults, start, seen, ms);
      var (w1, o) := Exec(faults, Transaction(Work(ms[i])), None, now);
      if IsBlank(ms[i].id) then w == now && all == Err(NO_ID)
      else if ms[i].id in seen then StillToApply(faults, start, now, seen, ms, i + 1, ran)
      else if o.Threw? then w == w1 && all == Err(o.error)
      else StillToApply(faults, start, w1, seen, ms, i + 1, ran + 1)
  {
    assert ms[i..][0] == ms[i] && ms[i..][1..] == ms[i + 1..];
  }

  // What a run leaves -----------------------------------------------------------------------------------

  function Ids(ms: seq<Migration>): set<string> {
    set m | m in ms :: m.id
  }

  function Texts(ms: seq<Migration>): seq<string> {
    seq(|ms|, i requires 0 <= i < |ms| => ms[i].sql)
  }

  /** The migrations not yet recorded, in order. */
  function Todo(seen: set<string>, ms: seq<Migration>): seq<Migration> {
    if ms == [] then []
    else if ms[0].id in seen then Todo(seen, ms[1..])
    else [ms[0]] + Todo(seen, ms[1..])
  }

  /** The database once these migrations took effect, each once and in order. */
  function Advanced(db: Db, done: seq<Migration>): Db {
    Db(db.effects + Texts(done), db.ids + Ids(done))
  }

  lemma OneMigration(faults: Faults, m: Migration, w: World)
    requires w.open.None?
    ensures var (w', o) := Exec(faults, Transaction(Work(m)), None, w);
      && w'.open.None?
      && (o.Returned? ==> m.id !in w.db.ids && w'.db == Db(w.db.effects + [m.sql], w.db.ids + {m.id}))
      && (o.Threw? ==> w'.db == w.db)
      && ((forall n :: faults(n).None?) ==> (o.Returned? <==> m.id !in w.db.ids))
  {
    TransactionsAreAtomic(faults, Work(m), w);
    WorkEffect(faults, m, |w.log|, Start(w));
  }

  lemma WorkEffect(faults: Faults, m: Migration, c: Client, w: World)
    requires w.open.Some? && !w.aborted
    ensures var (w', o) := Exec(faults, Work(m), Some(c), w);
      var db := w.open.value;
      && (o.Returned? ==> !w'.aborted)
      && (o.Returned? ==> m.id !in db.ids && w'.open == Some(Db(db.effects + [m.sql], db.ids + {m.id})))
      && ((forall n :: faults(n).None?) ==> (o.Returned? <==> m.id !in db.ids))
  {
    var (w1, o1) := Ask(faults, Some(c), w, Sql(m.sql));
    assert Exec(faults, Query(Sql(m.sql)), Some(c), w) == (w1, o1);
    if o1.Returned? {
      assert Exec(faults, Query(InsertId(m.id)), Some(c), w1) == Ask(faults, Some(c), w1, InsertId(m.id));
    }
  }

  lemma AdvancedOne(db: Db, m: Migration, rest: seq<Migration>, k: nat)
    requires k <= |rest|
    ensures Advanced(Db(db.effects + [m.sql], db.ids + {m.id}), rest[..k]) == Advanced(db, ([m] + rest)[..k + 1])
  {
    var all := ([m] + rest)[..k + 1];
    assert all == [m] + rest[..k];
    assert Ids(all) == {m.id} + Ids(rest[..k]);
    assert Texts(all) == [m.sql] + Texts(rest[..k]);
  }

  /**
   * The loop applies the migrations not yet recorded, in order, each once, up to
   * where it fails; if it succeeds, all of them.
   */
  lemma {:induction false} LoopApplies(faults: Faults, w: World, seen: set<string>, ms: seq<Migration>) returns (k: nat)
    requires w.open.None?
    ensures var (w', r) := ApplyEach(faults, w, seen, ms);
      var todo := Todo(seen, ms);
      && k <= |todo| && w'.open.None? && w'.db == Advanced(w.db, todo[..k])
      && (r.Ok? ==> k == |todo| && r.value == k)
    decreases |ms|
  {
    k := 0;
    assert Texts([]) == [] && Ids([]) == {};
    if ms != [] && !IsBlank(ms[0].id) {
      if ms[0].id in seen {
        k := LoopApplies(faults, w, seen, ms[1..]);
      } else {
        OneMigration(faults, ms[0], w);
        var (w1, o) := Exec(faults, Transaction(Work(ms[0])), None, w);
        if o.Returned? {
          k := LoopApplies(faults, w1, seen, ms[1..]);
          AdvancedOne(w.db, ms[0], Todo(seen, ms[1..]), k);
          k := k + 1;
        }
      }
    }
  }

  /**
   * However a run ends, the database holds exactly the first `k` unapplied
   * migrations beyond what it held; a run that succeeds applied them all and says
   * how many.
   */
  lemma RunApplies(faults: Faults, w: World, ms: seq<Migration>) returns (k: nat)
    requires w.open.None?
    ensures var (w', r) := Apply(faults, w, ms);
      var todo := Todo(w.db.ids, ms);
      && k <= |todo| && w'.open.None? && w'.db == Advanced(w.db, todo[..k])
      && (r.Ok? ==> k == |todo| && r.value == k)
  {
    k := 0;
    assert Texts([]) == [] && Ids([]) == {};
    var (w1, o1) := Ask(faults, None, w, EnsureTable);
    if o1.Returned? {
      var (w2, o2) := Ask(faults, None, w1, SelectIds);
      if o2.Returned? { k := LoopApplies(faults, w2, w.db.ids, ms); }
    }
  }

  function IdList(ms: seq<Migration>): seq<string> {
    seq(|ms|, i requires 0 <= i < |ms| => ms[i].id)
  }

  lemma {:induction false} TodoIds(seen: set<string>, ms: seq<Migration>)
    ensures forall m :: m in Todo(seen, ms) <==> m in ms && m.id !in seen
  {
    if ms != [] { TodoIds(seen, ms[1..]); }
  }

  lemma {:induction false} TodoEmpty(seen: set<string>, ms: seq<Migration>)
    requires forall m :: m in ms ==> m.id in seen
    ensures Todo(seen, ms) == []
  {
    if ms != [] { TodoEmpty(seen, ms[1..]); }
  }

  /** Recording an id that no migration has changes nothing. */
  lemma {:induction false} TodoSkips(seen: set<string>, id: string, ms: seq<Migration>)
    requires forall m :: m in ms ==> m.id != id
    ensures Todo(seen + {id}, ms) == Todo(seen, ms)
  {
    if ms != [] { TodoSkips(seen, id, ms[1..]); }
  }

  lemma FirstIdIsItsOwn(ms: seq<Migration>)
    requires ms != [] && EachOnce(IdList(ms))
    ensures EachOnce(IdList(ms[1..])) && forall m :: m in ms[1..] ==> m.id != ms[0].id
  {
    var rest := ms[1..];
    assert forall i :: 0 <= i < |rest| ==> IdList(rest)[i] == IdList(ms)[i + 1];
    forall m | m in rest ensures m.id != ms[0].id {
      var i :| 0 <= i < |rest| && rest[i] == m;
      assert IdList(ms)[i + 1] == m.id && IdList(ms)[0] == ms[0].id;
    }
  }

  /** Once the first `k` are recorded, what is left to do is the rest. */
  lemma {:induction false} TodoAfter(seen: set<string>, ms: seq<Migration>, k: nat)
    requires EachOnce(IdList(ms)) && k <= |Todo(seen, ms)|
    ensures Todo(seen + Ids(Todo(seen, ms)[..k]), ms) == Todo(seen, ms)[k..]
  {
    if k == 0 {
      assert seen + Ids(Todo(seen, ms)[..0]) == seen;
    } else {
      FirstIdIsItsOwn(ms);
      var id, rest := ms[0].id, ms[1..];
      if id in seen {
        TodoAfter(seen, rest, k);
      } else {
        var before := Todo(seen, rest)[..k - 1];
        TodoAfter(seen, rest, k - 1);
        TodoSkips(seen + Ids(before), id, rest);
        assert Todo(seen, ms)[..k] == [ms[0]] + before;
        assert seen + Ids([ms[0]] + before) == seen + Ids(before) + {id};
      }
    }
  }

  /** A run after a successful one changes nothing, and applies none if it succeeds. */
  lemma RunningAgainDoesNothing(faults: Faults, w: World, ms: seq<Migration>)
    requires w.open.None? && Apply(faults, w, ms).1.Ok?
    ensures var w1 := Apply(faults, w, ms).0;
      var (w2, r) := Apply(faults, w1, ms);
      w2.db == w1.db && (r.Ok? ==> r.value == 0)
  {
    var w1 := Apply(faults, w, ms).0;
    var k := RunApplies(faults, w, ms);
    var todo := Todo(w.db.ids, ms);
    assert todo[..k] == todo;
    TodoIds(w.db.ids, ms);
    TodoEmpty(w1.db.ids, ms);
    var k2 := RunApplies(faults, w1, ms);
    NothingAdvances(w1.db);
  }

  lemma NothingAdvances(db: Db)
    ensures Advanced(db, []) == db
  {
    assert Texts([]) == [] && Ids([]) == {};
  }

  lemma TextsJoin(a: seq<Migration>, b: seq<Migration>)
    ensures Texts(a + b) == Texts(a) + Texts(b)
  {
  }

  lemma IdsJoin(a: seq<Migration>, b: seq<Migration>)
    ensures Ids(a + b) == Ids(a) + Ids(b)
  {
    assert forall m :: m in a + b <==> m in a || m in b;
  }

  lemma AdvancedJoin(db: Db, a: seq<Migration>, b: seq<Migration>)
    ensures Advanced(Advanced(db, a), b) == Advanced(db, a + b)
  {
    TextsJoin(a, b);
    IdsJoin(a, b);
    assert db.effects + Texts(a) + Texts(b) == db.effects + (Texts(a) + Texts(b));
  }

  lemma AdvancedTwice(db: Db, todo: seq<Migration>, j: nat, k: nat)
    requires j <= |todo| && k <= |todo| - j
    ensures Advanced(Advanced(db, todo[..j]), todo[j..][..k]) == Advanced(db, todo[..j + k])
  {
    AdvancedJoin(db, todo[..j], todo[j..][..k]);
    assert todo[..j] + todo[j..][..k] == todo[..j + k];
  }

  /** The databases a series of attempts leaves, each starting from what the one before left. */
  ghost predicate Attempts(faults: Faults, ms: seq<Migration>, worlds: seq<World>) {
    worlds != [] && worlds[0].open.None? && forall i ::
      0 <= i < |worlds| - 1 ==> worlds[i + 1] == Apply(faults, worlds[i], ms).0
  }

  lemma {:induction false} AttemptsAddUp(faults: Faults, ms: seq<Migration>, worlds: seq<World>) returns (k: nat)
    requires EachOnce(IdList(ms)) && Attempts(faults, ms, worlds)
    ensures var todo := Todo(worlds[0].db.ids, ms);
      var last := worlds[|worlds| - 1];
      k <= |todo| && last.open.None? && last.db == Advanced(worlds[0].db, todo[..k])
        && Todo(last.db.ids, ms) == todo[k..]
  {
    var n, todo := |worlds| - 1, Todo(worlds[0].db.ids, ms);
    if n == 0 {
      k := 0;
      NothingAdvances(worlds[0].db);
    } else {
      var j := AttemptsAddUp(faults, ms, worlds[..n]);
      var more := RunApplies(faults, worlds[n - 1], ms);
      AdvancedTwice(worlds[0].db, todo, j, more);
      k := j + more;
      TodoAfter(worlds[0].db.ids, ms, k);
    }
  }

  /**
   * However many attempts failed before it, once one succeeds the database is
   * the one an uninterrupted run reaches: every unapplied migration applied once,
   * in order.
   */
  lemma ResumingCompletes(faults: Faults, ms: seq<Migration>, worlds: seq<World>)
    requires EachOnce(IdList(ms)) && Attempts(faults, ms, worlds) && Apply(faults, worlds[|worlds| - 1], ms).1.Ok?
    ensures Apply(faults, worlds[|worlds| - 1], ms).0.db == Advanced(worlds[0].db, Todo(worlds[0].db.ids, ms))
  {
    var todo := Todo(worlds[0].db.ids, ms);
    var j := AttemptsAddUp(faults, ms, worlds);
    var k := RunApplies(faults, worlds[|worlds| - 1], ms);
    AdvancedTwice(worlds[0].db, todo, j, k);
    assert todo[..j + k] == todo;
  }

  predicate NoneBlank(ms: seq<Migration>) {
    forall m :: m in ms ==> !IsBlank(m.id)
  }

  lemma {:induction false} LoopSucceedsIff(faults: Faults, w: World, seen: set<string>, ms: seq<Migration>)
    requires w.open.None? && (forall n :: faults(n).None?) && seen <= w.db.ids
    ensures ApplyEach(faults, w, seen, ms).1.Ok? <==>
      NoneBlank(ms) && EachOnce(IdList(Todo(seen, ms))) && Ids(Todo(seen, ms)) !! w.db.ids
    decreases |ms|
  {
    if ms != [] && !IsBlank(ms[0].id) {
      if ms[0].id in seen {
        LoopSucceedsIff(faults, w, seen, ms[1..]);
      } else {
        OneMigration(faults, ms[0], w);
        var (w1, o) := Exec(faults, Transaction(Work(ms[0])), None, w);
        DistinctHead(ms[0], Todo(seen, ms[1..]), w.db.ids);
        if o.Returned? { LoopSucceedsIff(faults, w1, seen, ms[1..]); }
      }
      assert NoneBlank(ms) <==> NoneBlank(ms[1..]);
    }
  }

  lemma DistinctHead(m: Migration, rest: seq<Migration>, ids: set<string>)
    ensures EachOnce(IdList([m] + rest)) && Ids([m] + rest) !! ids <==>
      m.id !in ids && EachOnce(IdList(rest)) && Ids(rest) !! ids + {m.id}
  {
    var all := [m] + rest;
    assert IdList(all) == [m.id] + IdList(rest);
    assert Ids(all) == {m.id} + Ids(rest);
    if EachOnce(IdList(all)) {
      FirstIdIsItsOwn(all);
      assert all[1..] == rest;
    } else if EachOnce(IdList(rest)) {
      assert m.id in IdList(rest);
      var i :| 0 <= i < |rest| && IdList(rest)[i] == m.id;
      assert rest[i] in rest;
    }
  }

  /**
   * With no fault from the database a run succeeds exactly when no id is blank
   * and no unapplied id is listed twice: ids applied by the run itself are not
   * skipped, so a repeated one is refused by the primary key.
   */
  lemma RunSucceedsIff(faults: Faults, w: World, ms: seq<Migration>)
    requires w.open.None? && forall n :: faults(n).None?
    ensures Apply(faults, w, ms).1.Ok? <==> NoneBlank(ms) && EachOnce(IdList(Todo(w.db.ids, ms)))
  {
    var w2 := Ask(faults, None, Ask(faults, None, w, EnsureTable).0, SelectIds).0;
    LoopSucceedsIff(faults, w2, w.db.ids, ms);
    TodoIds(w.db.ids, ms);
  }

  // The calls of a run -----------------------------------------------------------------------------------

  /** One migration on the client connected by the call numbered `c`: its SQL, then its record, in a transaction. */
  function OneMigrationsCalls(c: Client, m: Migration): seq<Entry> {
    [Entry(Connect, true), Entry(Begin(c), true), Entry(Send(Some(c), Sql(m.sql)), true),
     Entry(Send(Some(c), InsertId(m.id)), true), Entry(Commit(c), true), Entry(Release(c), true)]
  }

  function MigrationCalls(n: nat, todo: seq<Migration>): seq<Entry>
    decreases |todo|
  {
    if todo == [] then [] else OneMigrationsCalls(n, todo[0]) + MigrationCalls(n + 6, todo[1..])
  }

  lemma OneMigrationLog(faults: Faults, m: Migration, w: World)
    requires w.open.None? && Exec(faults, Transaction(Work(m)), None, w).1.Returned?
    ensures Exec(faults, Transaction(Work(m)), None, w).0.log == w.log + OneMigrationsCalls(|w.log|, m)
  {
    var k := |w.log|;
    ReturningLog(faults, Work(m), w);
    WorkLog(faults, m, k, Start(w));
    SixCalls(w.log, k, m);
  }

  lemma SixCalls(log: seq<Entry>, k: Client, m: Migration)
    ensures log + [Entry(Connect, true)] + [Entry(Begin(k), true)]
            + [Entry(Send(Some(k), Sql(m.sql)), true), Entry(Send(Some(k), InsertId(m.id)), true)]
            + [Entry(Commit(k), true)] + [Entry(Release(k), true)] == log + OneMigrationsCalls(k, m)
  {
  }

  lemma WorkLog(faults: Faults, m: Migration, c: Client, w: World)
    requires Exec(faults, Work(m), Some(c), w).1.Returned?
    ensures Exec(faults, Work(m), Some(c), w).0.log
            == w.log + [Entry(Send(Some(c), Sql(m.sql)), true), Entry(Send(Some(c), InsertId(m.id)), true)]
  {
    var (w1, o1) := Ask(faults, Some(c), w, Sql(m.sql));
    assert Exec(faults, Query(Sql(m.sql)), Some(c), w) == (w1, o1);
    assert Exec(faults, Query(InsertId(m.id)), Some(c), w1) == Ask(faults, Some(c), w1, InsertId(m.id));
  }

  lemma {:induction false} LoopCalls(faults: Faults, w: World, seen: set<string>, ms: seq<Migration>)
    requires w.open.None? && ApplyEach(faults, w, seen, ms).1.Ok?
    ensures var (w', r) := ApplyEach(faults, w, seen, ms);
      w'.log == w.log + MigrationCalls(|w.log|, Todo(seen, ms)) && r.value == |Todo(seen, ms)|
    decreases |ms|
  {
    if ms != [] {
      if ms[0].id in seen {
        LoopCalls(faults, w, seen, ms[1..]);
      } else {
        var w1 := Exec(faults, Transaction(Work(ms[0])), None, w).0;
        OneMigration(faults, ms[0], w);
        OneMigrationLog(faults, ms[0], w);
        LoopCalls(faults, w1, seen, ms[1..]);
        CallsAppend(w.log, OneMigrationsCalls(|w.log|, ms[0]), MigrationCalls(|w1.log|, Todo(seen, ms[1..])));
        assert Todo(seen, ms)[1..] == Todo(seen, ms[1..]);
      }
    }
  }

  lemma CallsAppend(a: seq<Entry>, b: seq<Entry>, c: seq<Entry>)
    ensures (a + b) + c == a + (b + c)
  {
  }

  /**
   * A run that succeeds makes the table, reads the ids recorded, and then for each
   * unapplied migration in turn sends its SQL and records it in one transaction;
   * it makes no other call, and returns how many migrations those were.
   */
  lemma RunCalls(faults: Faults, w: World, ms: seq<Migration>)
    requires w.open.None? && Apply(faults, w, ms).1.Ok?
    ensures var (w', r) := Apply(faults, w, ms);
      var todo := Todo(w.db.ids, ms);
      && w'.log == w.log + [Entry(Send(None, EnsureTable), true), Entry(Send(None, SelectIds), true)]
                   + MigrationCalls(|w.log| + 2, todo)
      && r == Ok(|todo|)
  {
    var (w1, o1) := Ask(faults, None, w, EnsureTable);
    var (w2, o2) := Ask(faults, None, w1, SelectIds);
    LoopCalls(faults, w2, w1.db.ids, ms);
    assert w2.log == w.log + [Entry(Send(None, EnsureTable), true), Entry(Send(None, SelectIds), true)];
  }
}
