/** The real form of the content store: one table, read by a paginated scan and deleted from in batches. */
module CmsTable {
  import opened Prelude
  import opened CmsModel
  import opened CmsCascade
  import opened CmsAddresses

  const BATCH := 25
  const ATTEMPTS := 5

  datatype DbError = Rejected | Failed | LeftUnprocessed

  function Without(order: seq<Address>, gone: set<Address>): (r: seq<Address>)
    ensures forall a :: a in r <==> a in order && a !in gone
    ensures EachOnce(order) ==> EachOnce(r)
  {
    if order == [] then [] else
    assert EachOnce(order) ==> EachOnce(order[1..]) && order[0] !in order[1..];
    var rest := Without(order[1..], gone);
    if order[0] in gone then rest else [order[0]] + rest
  }

  /** Every row sits at the address its key properties spell. */
  ghost predicate Filed(rows: Rows) {
    forall a :: a in rows ==>
      PartitionKey in rows[a] && SortKey in rows[a] && a == (rows[a][PartitionKey], rows[a][SortKey])
  }

  function RowsAt(rows: Rows, order: seq<Address>): seq<Item>
    requires forall a :: a in order ==> a in rows
  {
    seq(|order|, i requires 0 <= i < |order| => rows[order[i]])
  }

  /** How many keys of the scan order a cursor has passed. */
  function After(order: seq<Address>, start: Option<Address>): (n: nat)
    requires start.Some? ==> start.value in order
    ensures n <= |order| && (start.Some? ==> n > 0 && order[n - 1] == start.value) && (start.None? ==> n == 0)
  {
    if start.None? then 0
    else if order[0] == start.value then 1
    else 1 + After(order[1..], start)
  }

  lemma {:induction false} AfterIndex(order: seq<Address>, i: nat)
    requires EachOnce(order) && i < |order|
    ensures After(order, Some(order[i])) == i + 1
  {
    if i > 0 { AfterIndex(order[1..], i - 1); }
  }

  /** Only the given keys' rows went, and none changed. */
  ghost predicate OnlyLost(before: Rows, after: Rows, keys: set<Address>) {
    after.Keys <= before.Keys && after == before - (before.Keys - after.Keys) && before.Keys - after.Keys <= keys
  }

  /** The database: it pages as it likes, processes what it likes of a batch, and may fail any batch. */
  class Table {
    /** Whether the database serves every well-formed batch at once and in full. */
    const obliging: bool
    var rows: Rows
    var order: seq<Address>
    ghost var sent: seq<seq<Address>>

    ghost predicate Valid()
      reads this
    {
      Filed(rows) && EachOnce(order) && (forall a :: a in rows <==> a in order)
    }

    constructor (serves: bool)
      ensures Valid() && rows == map[] && sent == [] && obliging == serves
    {
      obliging, rows, order, sent := serves, map[], [], [];
    }

    method Put(row: Item)
      requires Valid() && PartitionKey in row && SortKey in row
      modifies this
      ensures Valid() && rows == old(rows)[(row[PartitionKey], row[SortKey]) := row] && sent == old(sent)
    {
      var a := (row[PartitionKey], row[SortKey]);
      if a !in rows {
        var i :| 0 <= i <= |order|;
        order := order[..i] + [a] + order[i..];
      }
      rows := rows[a := row];
    }

    /** One page of a scan: at least one row unless none is left, and a cursor unless the scan ended. */
    method Scan(start: Option<Address>) returns (page: seq<Item>, last: Option<Address>)
      requires Valid() && (start.Some? ==> start.value in order)
      ensures last.None? ==> page == RowsAt(rows, order[After(order, start)..])
      ensures last.Some? ==> last.value in order && After(order, start) < After(order, last)
      ensures last.Some? ==> page == RowsAt(rows, order[After(order, start)..After(order, last)])
    {
      var from := After(order, start);
      if from == |order| { return [], None; }
      var to :| from < to <= |order|;
      page := RowsAt(rows, order[from..to]);
      last := Some(order[to - 1]);
      AfterIndex(order, to - 1);
      var ended := *;
      if ended && to == |order| { last := None; }
    }

    /** Deletes some of the keys and hands back the rest; refuses oversized, empty and repetitive batches. */
    method BatchDelete(keys: seq<Address>) returns (r: Result<seq<Address>, DbError>)
      requires Valid()
      modifies this
      ensures Valid() && sent == old(sent) + [keys]
      ensures OnlyLost(old(rows), rows, SetOf(keys))
      ensures !(0 < |keys| <= BATCH && EachOnce(keys)) ==> r == Err(Rejected) && rows == old(rows)
      ensures r.Ok? ==> |r.value| <= |keys| && EachOnce(r.value) && SetOf(r.value) <= SetOf(keys)
      ensures r.Ok? ==> rows == old(rows) - (SetOf(keys) - SetOf(r.value))
      ensures obliging && 0 < |keys| <= BATCH && EachOnce(keys) ==> r == Ok([])
    {
      sent := sent + [keys];
      if !(0 < |keys| <= BATCH && EachOnce(keys)) { return Err(Rejected); }
      var left: seq<Address> := [];
      for i := 0 to |keys|
        invariant |left| <= i && EachOnce(left) && SetOf(left) <= SetOf(keys[..i]) && (obliging ==> left == [])
      {
        assert keys[i] !in keys[..i];
        assert SetOf(keys[..i + 1]) == SetOf(keys[..i]) + {keys[i]};
        var skipped := *;
        if skipped && !obliging { left := left + [keys[i]]; }
      }
      assert keys[..|keys|] == keys;
      var gone := (set k | k in keys) - (set k | k in left);
      rows, order := rows - gone, Without(order, gone);
      var failed := *;
      r := if failed && !obliging then Err(Failed) else Ok(left);
    }
  }
}
