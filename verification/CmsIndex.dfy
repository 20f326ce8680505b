/** A read view over a snapshot, with memoized id lookups. */
module CmsIndex {
  import opened Prelude
  import opened CmsModel
  import opened CmsCascade

  function IdOf(item: Item): string {
    Get(item, Id).GetOr("undefined")
  }

  /** What a linear scan finds: the last item with the id. */
  function LastMatch(items: seq<Item>, id: string): Option<Item> {
    if items == [] then None
    else if IdOf(items[|items| - 1]) == id then Some(items[|items| - 1])
    else LastMatch(items[..|items| - 1], id)
  }

  lemma {:induction false} LastMatchIn(items: seq<Item>, id: string)
    ensures LastMatch(items, id).Some? ==> LastMatch(items, id).value in items && IdOf(LastMatch(items, id).value) == id
    ensures LastMatch(items, id).None? ==> forall i :: 0 <= i < |items| ==> IdOf(items[i]) != id
  {
    if items != [] {
      var n := |items| - 1;
      LastMatchIn(items[..n], id);
      assert forall i :: 0 <= i < n ==> items[..n][i] == items[i];
    }
  }

  /** In a list of a type's items, each once, the scan finds the stored item. */
  lemma ScanFinds(items: seq<Item>, content: Content, entity: string, id: string)
    requires Lists(items, content, entity) && forall k :: k in content ==> Get(content[k], Id) == Some(k.id)
    ensures LastMatch(items, id) == Find(content, Key(entity, id))
  {
    LastMatchIn(items, id);
    var k := Key(entity, id);
    if LastMatch(items, id).Some? {
      var i :| 0 <= i < |items| && items[i] == LastMatch(items, id).value;
      assert Find(content, Key(entity, items[i][Id])) == Some(items[i]);
    }
    if k in content { assert content[k] in items && IdOf(content[k]) == id; }
  }

  method IdMap(items: seq<Item>) returns (ids: map<string, Item>)
    ensures forall id :: (if id in ids then Some(ids[id]) else None) == LastMatch(items, id)
  {
    ids := map[];
    for i := 0 to |items|
      invariant forall id :: (if id in ids then Some(ids[id]) else None) == LastMatch(items[..i], id)
    {
      assert items[..i + 1][..i] == items[..i];
      ids := ids[IdOf(items[i]) := items[i]];
    }
    assert items[..|items|] == items;
  }

  class ContentIndex {
    const snapshot: Snapshot
    const reg: Registry
    var ids: map<string, map<string, Item>>

    ghost predicate Valid()
      reads this
    {
      forall n :: n in ids ==> reg.Has(n) && forall id ::
        (if id in ids[n] then Some(ids[n][id]) else None) == LastMatch(All(reg, snapshot, n), id)
    }

    constructor (read: Snapshot, registry: Registry)
      ensures Valid() && snapshot == read && reg == registry
    {
      snapshot, reg, ids := read, registry, map[];
    }

    /** Memoized or not, a lookup gives the last match of a linear scan. */
    method ById(entity: string, id: string) returns (found: Option<Item>)
      requires Valid() && reg.Has(entity)
      modifies this
      ensures Valid() && found == LastMatch(All(reg, snapshot, entity), id)
    {
      if entity !in ids {
        var made := IdMap(All(reg, snapshot, entity));
        ids := ids[entity := made];
      }
      found := if id in ids[entity] then Some(ids[entity][id]) else None;
    }
  }

  /** The whole index, in the form hooks are given it. */
  function Whole(reg: Registry, snapshot: Snapshot): Content {
    var keys := set n, item | n in reg.byName && item in All(reg, snapshot, n) :: Key(n, IdOf(item));
    map k | k in keys && reg.Has(k.entity)
      && LastMatch(All(reg, snapshot, k.entity), k.id).Some? :: LastMatch(All(reg, snapshot, k.entity), k.id).value
  }

  lemma WholeFinds(reg: Registry, snapshot: Snapshot, content: Content, k: Key)
    requires Keyed(reg, content) && Shows(reg, snapshot, content)
    ensures Find(Whole(reg, snapshot), k) == Find(content, k)
  {
    if reg.Has(k.entity) {
      var items := All(reg, snapshot, k.entity);
      ScanFinds(items, content, k.entity, k.id);
      LastMatchIn(items, k.id);
    }
  }

  lemma SameFinds(a: Content, b: Content)
    requires forall k: Key :: Find(a, k) == Find(b, k)
    ensures a == b
  {
    forall k: Key ensures k in a <==> k in b { assert Find(a, k) == Find(b, k); }
    forall k | k in a ensures a[k] == b[k] { assert Find(a, k) == Find(b, k); }
  }

  lemma WholeIs(reg: Registry, snapshot: Snapshot, content: Content)
    requires Keyed(reg, content) && Shows(reg, snapshot, content)
    ensures Whole(reg, snapshot) == content
  {
    forall k: Key ensures Find(Whole(reg, snapshot), k) == Find(content, k) { WholeFinds(reg, snapshot, content, k); }
    SameFinds(Whole(reg, snapshot), content);
  }
}
