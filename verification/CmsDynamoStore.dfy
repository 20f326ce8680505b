/** The table-backed content store: what its scan reads back, and what its batched deletes leave. */
module CmsDynamoStore {
  import opened Prelude
  import opened CmsModel
  import opened CmsIntegrity
  import opened CmsCascade
  import opened CmsIndex
  import opened CmsMemoryStore
  import opened CmsAddresses
  import opened CmsTable

  // Sorting rows into collections ----------------------------------------------------------------

  function OwnerOf(specs: seq<EntitySpec>, sk: string): Option<EntityDef> {
    if specs == [] then None
    else if specs[0].def.Owns(sk) then Some(specs[0].def)
    else OwnerOf(specs[1..], sk)
  }

  predicate LandsIn(specs: seq<EntitySpec>, sk: string, collection: string) {
    OwnerOf(specs, sk).Some? && OwnerOf(specs, sk).value.collection == collection
  }

  /** The stripped rows whose first owner is filed under the collection, in scan order. */
  function Collected(specs: seq<EntitySpec>, rows: seq<Item>, collection: string): seq<Item>
    requires forall row :: row in rows ==> SortKey in row
  {
    if rows == [] then [] else
    var n := |rows| - 1;
    Collected(specs, rows[..n], collection) + if LandsIn(specs, rows[n][SortKey], collection) then [Strip(rows[n])]
      else []
  }

  lemma {:induction false} OwnerHasCollection(specs: seq<EntitySpec>, sk: string)
    ensures OwnerOf(specs, sk).Some? ==> exists i :: 0 <= i < |specs| && specs[i].def == OwnerOf(specs, sk).value
  {
    if specs != [] && !specs[0].def.Owns(sk) {
      OwnerHasCollection(specs[1..], sk);
      if OwnerOf(specs, sk).Some? {
        var i :| 0 <= i < |specs| - 1 && specs[1..][i].def == OwnerOf(specs, sk).value;
        assert specs[i + 1].def == OwnerOf(specs, sk).value;
      }
    }
  }

  method RowsToSnapshot(specs: seq<EntitySpec>, rows: seq<Item>) returns (snapshot: Snapshot)
    requires forall row :: row in rows ==> SortKey in row
    ensures forall i :: 0 <= i < |specs| ==> specs[i].def.collection in snapshot
    ensures forall c :: c in snapshot ==> snapshot[c] == Collected(specs, rows, c)
  {
    snapshot := map[];
    for i := 0 to |specs|
      invariant forall j :: 0 <= j < i ==> specs[j].def.collection in snapshot
      invariant forall c :: c in snapshot ==> snapshot[c] == []
    {
      snapshot := snapshot[specs[i].def.collection := []];
    }
    for i := 0 to |rows|
      invariant forall j :: 0 <= j < |specs| ==> specs[j].def.collection in snapshot
      invariant forall c :: c in snapshot ==> snapshot[c] == Collected(specs, rows[..i], c)
    {
      assert rows[..i + 1][..i] == rows[..i];
      var owner := OwnerOf(specs, rows[i][SortKey]);
      OwnerHasCollection(specs, rows[i][SortKey]);
      if owner.Some? {
        snapshot := snapshot[owner.value.collection := snapshot[owner.value.collection] + [Strip(rows[i])]];
      }
    }
    assert rows[..|rows|] == rows;
  }

  /** With distinct keys and collections, a row lands in a type's list exactly when the type owns it. */
  lemma LandsWithItsOwner(reg: Registry, n: string, sk: string)
    requires reg.Valid() && DistinctKeys(reg) && DistinctCollections(reg) && reg.Has(n)
    ensures LandsIn(reg.specs, sk, reg.Def(n).collection) <==> reg.Def(n).Owns(sk)
  {
    OwnerHasCollection(reg.specs, sk);
    var i :| 0 <= i < |reg.specs| && reg.specs[i].def.name == n;
    FirstOwnerOwns(reg.specs, sk, i);
    var owner := OwnerOf(reg.specs, sk);
    if owner.Some? && reg.Def(n).Owns(sk) { OneOwner(reg, n, owner.value.name, sk); }
  }

  lemma {:induction false} FirstOwnerOwns(specs: seq<EntitySpec>, sk: string, i: nat)
    requires i < |specs|
    ensures OwnerOf(specs, sk).Some? ==> OwnerOf(specs, sk).value.Owns(sk)
    ensures specs[i].def.Owns(sk) ==> OwnerOf(specs, sk).Some?
  {
    if !specs[0].def.Owns(sk) && |specs| > 1 { FirstOwnerOwns(specs[1..], sk, if i == 0 then 0 else i - 1); }
  }

  /** An owned row is the stored form of one item of its owner's type. */
  lemma RowIsItem(reg: Registry, rows: Rows, content: Content, a: Address, n: string) returns (k: Key)
    requires DistinctKeys(reg) && Represents(reg, rows, content) && a in rows && reg.Has(n) && reg.Def(n).Owns(a.1)
    ensures k in content && k.entity == n && AddressOf(reg, k, content[k]) == a && Strip(rows[a]) == content[k]
  {
    assert HasRow(reg, content, a);
    k :| k in content && reg.Has(k.entity) && AddressOf(reg, k, content[k]) == a;
    OwnsItsRows(reg, k, content[k]);
    OneOwner(reg, n, k.entity, a.1);
    assert Holds(reg, rows, k, content[k]);
    StripRecovers(reg.Def(n), content[k]);
  }

  /** The list holds exactly the type's items at the given addresses, each once. */
  ghost predicate ListsAt(reg: Registry, list: seq<Item>, content: Content, n: string, at: seq<Address>)
    requires reg.Has(n)
  {
    && (forall i :: 0 <= i < |list| ==>
          Id in list[i] && Find(content, Key(n, list[i][Id])) == Some(list[i])
            && AddressOf(reg, Key(n, list[i][Id]), list[i]) in at)
    && (forall i, j :: 0 <= i < j < |list| ==> list[i][Id] != list[j][Id])
    && (forall k: Key :: k in content && k.entity == n && AddressOf(reg, k, content[k]) in at ==> content[k] in list)
  }

  lemma OneMoreItem(reg: Registry, content: Content, n: string, list: seq<Item>, at: seq<Address>, k: Key)
    requires DistinctKeys(reg) && Keyed(reg, content) && reg.Has(n) && ListsAt(reg, list, content, n, at)
    requires k in content && k.entity == n && AddressOf(reg, k, content[k]) !in at
    ensures ListsAt(reg, list + [content[k]], content, n, at + [AddressOf(reg, k, content[k])])
  {
    forall j: Key | j in content && j.entity == n && AddressOf(reg, j, content[j]) == AddressOf(reg, k, content[k])
      ensures j == k {
      AddressesInjective(reg, j, content[j], k, content[k]);
    }
  }

  lemma OneMoreRow(reg: Registry, rows: Rows, content: Content, n: string, list: seq<Item>, at: seq<Address>,
          a: Address)
    requires DistinctKeys(reg) && Represents(reg, rows, content) && reg.Has(n)
    requires ListsAt(reg, list, content, n, at) && a in rows && a !in at
    ensures ListsAt(reg, list + if reg.Def(n).Owns(a.1) then [Strip(rows[a])] else [], content, n, at + [a])
  {
    if reg.Def(n).Owns(a.1) {
      var k := RowIsItem(reg, rows, content, a, n);
      OneMoreItem(reg, content, n, list, at, k);
    } else {
      forall j: Key | j in content && j.entity == n ensures AddressOf(reg, j, content[j]) != a {
        OwnsItsRows(reg, j, content[j]);
      }
      assert list + [] == list;
    }
  }

  lemma {:induction false} CollectedListsAt(reg: Registry, rows: Rows, content: Content, n: string, at: seq<Address>)
    requires reg.Valid() && DistinctKeys(reg) && DistinctCollections(reg) && reg.Has(n)
    requires Represents(reg, rows, content) && Filed(rows) && EachOnce(at) && forall a :: a in at ==> a in rows
    ensures ListsAt(reg, Collected(reg.specs, RowsAt(rows, at), reg.Def(n).collection), content, n, at)
  {
    if at != [] {
      var m := |at| - 1;
      CollectedListsAt(reg, rows, content, n, at[..m]);
      LandsWithItsOwner(reg, n, at[m].1);
      OneMoreRow(reg, rows, content, n, Collected(reg.specs, RowsAt(rows, at[..m]), reg.Def(n).collection), at[..m],
        at[m]);
      assert RowsAt(rows, at)[..m] == RowsAt(rows, at[..m]);
      assert at == at[..m] + [at[m]];
    }
  }

  /** What a whole scan sorts into a type's list is the content the rows represent. */
  lemma ScanShows(reg: Registry, rows: Rows, content: Content, order: seq<Address>, n: string)
    requires reg.Valid() && DistinctKeys(reg) && DistinctCollections(reg) && reg.Has(n)
    requires Represents(reg, rows, content) && Filed(rows) && EachOnce(order) && forall a :: a in order <==> a in rows
    ensures Lists(Collected(reg.specs, RowsAt(rows, order), reg.Def(n).collection), content, n)
  {
    CollectedListsAt(reg, rows, content, n, order);
    forall k | k in content && k.entity == n ensures AddressOf(reg, k, content[k]) in order {
      assert Holds(reg, rows, k, content[k]);
    }
  }

  // The store -------------------------------------------------------------------------------------

  lemma PagesJoin(rows: Rows, order: seq<Address>, i: nat, j: nat)
    requires i <= j <= |order| && forall a :: a in order ==> a in rows
    ensures RowsAt(rows, order[..i]) + RowsAt(rows, order[i..j]) == RowsAt(rows, order[..j])
  {
  }

  /** How many batches a list of keys takes. */
  function Batches(n: nat): nat {
    (n + BATCH - 1) / BATCH
  }

  function Addresses(reg: Registry, targets: seq<Target>): seq<Address>
    requires forall t :: t in targets ==> reg.Has(t.entity)
  {
    seq(|targets|, i requires 0 <= i < |targets| => TargetAddress(reg, targets[i]))
  }

  /** Of a batch's rows, all but those of the keys still pending are gone. */
  ghost predicate Pending(before: Rows, after: Rows, batch: set<Address>, pending: set<Address>) {
    pending <= batch && after == before - (batch - pending)
  }

  lemma PendingAdds(before: Rows, mid: Rows, after: Rows, batch: set<Address>, asked: set<Address>, left: set<Address>)
    requires Pending(before, mid, batch, asked) && OnlyLost(mid, after, asked) && left <= asked
    ensures OnlyLost(before, after, batch)
    ensures after == mid - (asked - left) ==> Pending(before, after, batch, left)
  {
  }

  /** How many targets the first `n` batches take. */
  function UpTo(targets: seq<Target>, n: nat): nat {
    if n * BATCH <= |targets| then n * BATCH else |targets|
  }

  /** The batches before `n` are wholly deleted, and of the rest only batch `n` is touched. */
  ghost predicate StoppedAt(reg: Registry, targets: seq<Target>, before: Rows, after: Rows, n: nat)
    requires forall t :: t in targets ==> reg.Has(t.entity)
  {
    OnlyLost(before - AddressesOf(reg, targets[..UpTo(targets, n)]), after,
      AddressesOf(reg, targets[UpTo(targets, n)..UpTo(targets, n + 1)]))
  }

  /** Every call since `from` deletes some of `keys`, at most a batch at a time. */
  ghost predicate CallsWithin(sent: seq<seq<Address>>, from: nat, keys: set<Address>) {
    forall i :: from <= i < |sent| ==> |sent[i]| <= 25 && SetOf(sent[i]) <= keys
  }

  class DynamoContentStore {
    const db: Table
    const reg: Registry

    constructor (table: Table, registry: Registry)
      ensures db == table && reg == registry
    {
      db, reg := table, registry;
    }

    method Scan() returns (rows: seq<Item>)
      requires db.Valid()
      ensures rows == RowsAt(db.rows, db.order)
    {
      rows := [];
      var start: Option<Address>, more := None, true;
      while more
        invariant start.Some? ==> start.value in db.order
        invariant rows == RowsAt(db.rows, db.order[..if more then After(db.order, start) else |db.order|])
        decreases if more then |db.order| - After(db.order, start) + 1 else 0
      {
        var page, last := db.Scan(start);
        PagesJoin(db.rows, db.order, After(db.order, start), if last.None? then |db.order| else After(db.order, last));
        assert db.order[After(db.order, start)..|db.order|] == db.order[After(db.order, start)..];
        rows := rows + page;
        start, more := last, last.Some?;
      }
      assert db.order[..|db.order|] == db.order;
    }

    /** Whatever content the rows represent, that is what is read back, each item once. */
    method LoadAll() returns (snapshot: Snapshot)
      requires db.Valid() && reg.Valid() && DistinctKeys(reg) && DistinctCollections(reg)
      ensures forall content :: Represents(reg, db.rows, content) ==> Shows(reg, snapshot, content)
    {
      var rows := Scan();
      forall row | row in rows ensures SortKey in row {
        var i :| 0 <= i < |rows| && rows[i] == row;
        assert db.order[i] in db.order;
      }
      snapshot := RowsToSnapshot(reg.specs, rows);
      forall content, n | Represents(reg, db.rows, content) && n in reg.byName
        ensures Lists(All(reg, snapshot, n), content, n) {
        var i :| 0 <= i < |reg.specs| && reg.specs[i].def.name == n;
        ScanShows(reg, db.rows, content, db.order, n);
      }
    }

    method Put(entity: string, item: Item)
      requires db.Valid() && reg.Has(entity) && Id in item
      modifies db
      ensures db.Valid() && db.rows == OnRows(reg, old(db.rows), PutOp(entity, item))
    {
      db.Put(RowOf(reg.Def(entity), item));
    }

    /** One batch, sent again until nothing is left unprocessed, five times at most. */
    method RemoveBatch(batch: seq<Address>) returns (r: Result<(), DbError>)
      requires db.Valid() && 0 < |batch| <= BATCH
      modifies db
      ensures db.Valid() && OnlyLost(old(db.rows), db.rows, SetOf(batch))
      ensures r.Ok? ==> db.rows == old(db.rows) - SetOf(batch)
      ensures !EachOnce(batch) ==> r.Err?
      ensures db.obliging && EachOnce(batch) ==> r.Ok?
      ensures old(db.sent) <= db.sent && |db.sent| <= |old(db.sent)| + 5
      ensures CallsWithin(db.sent, |old(db.sent)|, SetOf(batch))
    {
      var requests, attempt := batch, 0;
      while attempt < ATTEMPTS && requests != []
        invariant db.Valid() && attempt <= ATTEMPTS && |requests| <= |batch|
        invariant attempt == 0 ==> requests == batch
        invariant attempt > 0 ==> EachOnce(batch) && (db.obliging ==> requests == [])
        invariant Pending(old(db.rows), db.rows, SetOf(batch), SetOf(requests))
        invariant old(db.sent) <= db.sent && |db.sent| == |old(db.sent)| + attempt
        invariant CallsWithin(db.sent, |old(db.sent)|, SetOf(batch))
      {
        ghost var rows, sent := db.rows, db.sent;
        var reply := db.BatchDelete(requests);
        PendingAdds(old(db.rows), rows, db.rows, SetOf(batch), SetOf(requests),
          if reply.Ok? then SetOf(reply.value) else {});
        CallsAdd(|old(db.sent)|, sent, db.sent, SetOf(requests), SetOf(batch));
        if reply.Err? { return Err(reply.error); }
        requests, attempt := reply.value, attempt + 1;
      }
      if requests != [] { return Err(LeftUnprocessed); }
      return Ok(());
    }

    /**
     * On return exactly the targets' rows are gone. On an error some batch `n`
     * failed: see `StoppedAt`. A batch with a repeated key always fails, and on a
     * database without faults nothing else does.
     */
    method Remove(targets: seq<Target>) returns (r: Result<(), DbError>, ghost n: nat)
      requires db.Valid() && forall t :: t in targets ==> reg.Has(t.entity)
      modifies db
      ensures db.Valid() && OnlyLost(old(db.rows), db.rows, AddressesOf(reg, targets))
      ensures r.Ok? ==> db.rows == OnRows(reg, old(db.rows), RemoveOp(targets))
      ensures r.Err? ==> n < Batches(|targets|) && StoppedAt(reg, targets, old(db.rows), db.rows, n)
      ensures r.Ok? ==> BatchesDistinct(reg, targets)
      ensures db.obliging && BatchesDistinct(reg, targets) ==> r.Ok?
      ensures old(db.sent) <= db.sent && |db.sent| <= |old(db.sent)| + 5 * Batches(|targets|)
      ensures CallsWithin(db.sent, |old(db.sent)|, AddressesOf(reg, targets))
    {
      var keys := Addresses(reg, targets);
      var i := 0;
      n := 0;
      assert targets[..0] == [];
      while i < |keys|
        invariant db.Valid() && i == n * BATCH && n <= Batches(|targets|)
        invariant Deleted(reg, targets, old(db.rows), db.rows, n)
        invariant forall m: nat :: m < n ==> EachOnce(BatchAt(reg, targets, m))
        invariant old(db.sent) <= db.sent && |db.sent| <= |old(db.sent)| + ATTEMPTS * n
        invariant CallsWithin(db.sent, |old(db.sent)|, AddressesOf(reg, targets))
        decreases |keys| - i
      {
        var batch := keys[i..if i + BATCH <= |keys| then i + BATCH else |keys|];
        assert batch == BatchAt(reg, targets, n);
        ghost var rows, sent := db.rows, db.sent;
        var reply := RemoveBatch(batch);
        BatchDone(reg, targets, old(db.rows), rows, db.rows, n);
        CallsAdd(|old(db.sent)|, sent, db.sent, SetOf(batch), AddressesOf(reg, targets));
        if reply.Err? { return Err(reply.error), n; }
        i, n := i + BATCH, n + 1;
      }
      assert targets[..UpTo(targets, n)] == targets && n == Batches(|targets|);
      return Ok(()), n;
    }
  }

  ghost predicate Deleted(reg: Registry, targets: seq<Target>, before: Rows, after: Rows, n: nat)
    requires forall t :: t in targets ==> reg.Has(t.entity)
  {
    after == before - AddressesOf(reg, targets[..UpTo(targets, n)])
  }

  function BatchAt(reg: Registry, targets: seq<Target>, n: nat): seq<Address>
    requires forall t :: t in targets ==> reg.Has(t.entity)
  {
    Addresses(reg, targets)[UpTo(targets, n)..UpTo(targets, n + 1)]
  }

  /** No batch repeats an address. */
  ghost predicate BatchesDistinct(reg: Registry, targets: seq<Target>)
    requires forall t :: t in targets ==> reg.Has(t.entity)
  {
    forall n: nat :: n < Batches(|targets|) ==> EachOnce(BatchAt(reg, targets, n))
  }

  /** A list that repeats no address repeats none in a batch; in a list of one batch it is the same. */
  lemma DistinctBatches(reg: Registry, targets: seq<Target>)
    requires forall t :: t in targets ==> reg.Has(t.entity)
    ensures EachOnce(Addresses(reg, targets)) ==> BatchesDistinct(reg, targets)
    ensures |targets| <= BATCH && BatchesDistinct(reg, targets) ==> EachOnce(Addresses(reg, targets))
  {
    if 0 < |targets| <= BATCH { assert BatchAt(reg, targets, 0) == Addresses(reg, targets); }
  }

  lemma BatchDone(reg: Registry, targets: seq<Target>, before: Rows, mid: Rows, after: Rows, n: nat)
    requires (forall t :: t in targets ==> reg.Has(t.entity)) && n * BATCH < |targets|
    requires Deleted(reg, targets, before, mid, n) && OnlyLost(mid, after, SetOf(BatchAt(reg, targets, n)))
    ensures n < Batches(|targets|) && SetOf(BatchAt(reg, targets, n)) <= AddressesOf(reg, targets)
    ensures StoppedAt(reg, targets, before, after, n) && OnlyLost(before, after, AddressesOf(reg, targets))
    ensures after == mid - SetOf(BatchAt(reg, targets, n)) ==> Deleted(reg, targets, before, after, n + 1)
  {
    var lo, hi := UpTo(targets, n), UpTo(targets, n + 1);
    AddressesAre(reg, targets, lo, hi);
    BatchJoins(reg, targets, lo, hi);
    LossesAdd(before, mid, after, AddressesOf(reg, targets[..lo]), AddressesOf(reg, targets[lo..hi]));
  }

  lemma CallsAdd(from: nat, before: seq<seq<Address>>, after: seq<seq<Address>>, part: set<Address>, keys: set<Address>)
    requires from <= |before| && before <= after && part <= keys
    requires CallsWithin(before, from, keys) && CallsWithin(after, |before|, part)
    ensures CallsWithin(after, from, keys)
  {
  }

  lemma LossesAdd(before: Rows, mid: Rows, after: Rows, gone: set<Address>, part: set<Address>)
    requires mid == before - gone && OnlyLost(mid, after, part)
    ensures OnlyLost(before, after, gone + part)
    ensures after == mid - part ==> after == before - (gone + part)
  {
  }

  lemma BatchJoins(reg: Registry, targets: seq<Target>, lo: nat, hi: nat)
    requires lo <= hi <= |targets| && forall t :: t in targets ==> reg.Has(t.entity)
    ensures AddressesOf(reg, targets[..hi]) == AddressesOf(reg, targets[..lo]) + AddressesOf(reg, targets[lo..hi])
  {
    assert targets[..hi] == targets[..lo] + targets[lo..hi];
  }

  lemma AddressesAre(reg: Registry, targets: seq<Target>, lo: nat, hi: nat)
    requires lo <= hi <= |targets| && forall t :: t in targets ==> reg.Has(t.entity)
    ensures SetOf(Addresses(reg, targets)[lo..hi]) == AddressesOf(reg, targets[lo..hi]) <= AddressesOf(reg, targets)
  {
    var keys, part := Addresses(reg, targets)[lo..hi], targets[lo..hi];
    forall t | t in part ensures TargetAddress(reg, t) in SetOf(keys) {
      var i :| 0 <= i < |part| && part[i] == t;
      assert keys[i] == TargetAddress(reg, t);
    }
    forall a | a in keys ensures a in AddressesOf(reg, part) {
      var i :| 0 <= i < |keys| && keys[i] == a;
      assert part[i] in part;
    }
  }

  // The service's calls ------------------------------------------------------------------------------

  /** A removal list that names stored items once each, as they are stored, names no address twice and misses none. */
  lemma ExactListsNeverRepeat(reg: Registry, content: Content, ts: seq<Target>, keys: set<Key>)
    requires reg.Valid() && Keyed(reg, content) && DistinctKeys(reg) && Exact(reg, content, ts, keys)
    ensures Respects(reg, content, RemoveOp(ts)) && EachOnce(Addresses(reg, ts))
  {
    assert forall t :: t in ts ==> TargetAddress(reg, t) == AddressOf(reg, KeyOf(t), content[KeyOf(t)]);
    forall i, j | 0 <= i < j < |ts| ensures Addresses(reg, ts)[i] != Addresses(reg, ts)[j] {
      var a, b := KeyOf(ts[i]), KeyOf(ts[j]);
      AddressesInjective(reg, a, content[a], b, content[b]);
    }
  }

  /** Deleting a stored item's cascade from the table leaves the table representing the content without its subtree. */
  lemma DeletionStaysInStep(reg: Registry, snapshot: Snapshot, rows: Rows, content: Content, k: Key)
    requires reg.Valid() && DistinctKeys(reg) && Represents(reg, rows, content) && Shows(reg, snapshot, content)
    requires k in content
    ensures var ts := Cascade(reg, snapshot, k.entity, content[k]);
      && Resolved(reg, RemoveOp(ts)) && EachOnce(Addresses(reg, ts))
      && Represents(reg, OnRows(reg, rows, RemoveOp(ts)), content - Subtree(reg, content, k))
  {
    var ts := Cascade(reg, snapshot, k.entity, content[k]);
    CascadeIsSubtree(reg, snapshot, content, k);
    ExactListsNeverRepeat(reg, content, ts, Subtree(reg, content, k));
    StepsTogether(reg, rows, content, RemoveOp(ts));
  }

  /**
   * After any run of respectful calls, the table's snapshot and the simple
   * store's give the same item for every type and id.
   */
  lemma StoresReadAlike(reg: Registry, contents: seq<Content>, rows: seq<Rows>, ops: seq<StoreOp>, n: nat,
                        simple: Snapshot, scanned: Snapshot, entity: string, id: string)
    requires DistinctKeys(reg) && IsStoreRun(reg, contents, rows, ops) && Represents(reg, rows[0], contents[0])
    requires n < |contents|
    requires Shows(reg, simple, contents[n])
    requires forall content :: Represents(reg, rows[n], content) ==> Shows(reg, scanned, content)
    requires reg.Has(entity)
    ensures LastMatch(All(reg, scanned, entity), id) == LastMatch(All(reg, simple, entity), id)
  {
    RunsStayTogether(reg, contents, rows, ops, n);
    ScanFinds(All(reg, simple, entity), contents[n], entity, id);
    ScanFinds(All(reg, scanned, entity), contents[n], entity, id);
  }

  /** What the engine's writes keep includes the spelling of the link, so no put of theirs moves an item. */
  lemma KeptItemsStay(reg: Registry, content: Content, k: Key, item: Item)
    requires reg.Valid() && Keyed(reg, content) && reg.Has(k.entity)
    requires (k in content ==> Kept(reg, k.entity, content[k], item))
    ensures Stays(reg, content, k, item)
  {
  }
}
