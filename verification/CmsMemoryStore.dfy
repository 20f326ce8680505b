/** The simple form of the content store: a map of maps. */
module CmsMemoryStore {
  import opened Prelude
  import opened CmsModel
  import opened CmsCascade
  import opened CmsAddresses

  ghost predicate DistinctCollections(reg: Registry) {
    forall a, b :: a in reg.byName && b in reg.byName && a != b ==> reg.Def(a).collection != reg.Def(b).collection
  }

  /** The list holds the map's items, each once. */
  ghost predicate ListsMap(list: seq<Item>, items: map<string, Item>) {
    && (forall i :: 0 <= i < |list| ==> Id in list[i] && list[i][Id] in items && items[list[i][Id]] == list[i])
    && (forall i, j :: 0 <= i < j < |list| ==> Get(list[i], Id) != Get(list[j], Id))
    && (forall id :: id in items ==> items[id] in list)
  }

  method ListOf(items: map<string, Item>) returns (list: seq<Item>)
    requires forall id :: id in items ==> Get(items[id], Id) == Some(id)
    ensures ListsMap(list, items)
  {
    list := [];
    var left := items.Keys;
    while left != {}
      invariant left <= items.Keys
      invariant forall i :: 0 <= i < |list| ==>
                Id in list[i] && list[i][Id] in items.Keys - left && items[list[i][Id]] == list[i]
      invariant forall i, j :: 0 <= i < j < |list| ==> Get(list[i], Id) != Get(list[j], Id)
      invariant forall id :: id in items.Keys - left ==> items[id] in list
      decreases |left|
    {
      var id :| id in left;
      left := left - {id};
      list := list + [items[id]];
      assert items[id] in list;
    }
  }

  /** Items by collection and id. */
  type Data = map<string, map<string, Item>>

  ghost predicate Sorted(reg: Registry, data: Data) {
    && (forall n :: n in reg.byName ==> reg.Def(n).collection in data)
    && (forall n, id :: n in reg.byName && id in data[reg.Def(n).collection] ==>
       Get(data[reg.Def(n).collection][id], Id) == Some(id))
  }

  function Lookup(reg: Registry, data: Data, k: Key): Option<Item>
    requires forall n :: n in reg.byName ==> reg.Def(n).collection in data
  {
    if k.entity in reg.byName then At(data[reg.Def(k.entity).collection], k.id) else None
  }

  function At(items: map<string, Item>, id: string): Option<Item> {
    if id in items then Some(items[id]) else None
  }

  /** The content is what the data holds, by type and id. */
  ghost predicate Mirrors(reg: Registry, data: Data, content: Content)
    requires Sorted(reg, data)
  {
    forall k: Key :: Find(content, k) == Lookup(reg, data, k)
  }

  /** Writing under one collection moves the lookup of one key: the others live elsewhere. */
  lemma OthersStay(reg: Registry, data: Data, entity: string, id: string, after: Data)
    requires Sorted(reg, data) && Sorted(reg, after) && DistinctCollections(reg) && reg.Has(entity)
    requires forall c :: c in data && c != reg.Def(entity).collection ==> c in after && after[c] == data[c]
    requires var c := reg.Def(entity).collection; after[c] - {id} == data[c] - {id}
    ensures forall k: Key :: k != Key(entity, id) ==> Lookup(reg, after, k) == Lookup(reg, data, k)
  {
    forall k: Key | k != Key(entity, id) && k.entity in reg.byName
      ensures Lookup(reg, after, k) == Lookup(reg, data, k) {
      var c := reg.Def(k.entity).collection;
      if k.entity == entity {
        assert k.id in after[c] <==> k.id in after[c] - {id};
        assert k.id in data[c] <==> k.id in data[c] - {id};
        assert k.id in data[c] ==> (after[c] - {id})[k.id] == (data[c] - {id})[k.id];
      }
    }
  }

  lemma MirrorsAfterPut(reg: Registry, data: Data, content: Content, entity: string, item: Item)
    requires Sorted(reg, data) && Mirrors(reg, data, content) && DistinctCollections(reg) && reg.Has(entity)
    requires Id in item
    ensures var c := reg.Def(entity).collection;
      var after := data[c := data[c][item[Id] := item]];
      Sorted(reg, after) && Mirrors(reg, after, content[Key(entity, item[Id]) := item])
  {
    var c := reg.Def(entity).collection;
    OthersStay(reg, data, entity, item[Id], data[c := data[c][item[Id] := item]]);
  }

  lemma MirrorsAfterDelete(reg: Registry, data: Data, content: Content, entity: string, id: string)
    requires Sorted(reg, data) && Mirrors(reg, data, content) && DistinctCollections(reg) && reg.Has(entity)
    ensures var c := reg.Def(entity).collection;
      var after := data[c := data[c] - {id}];
      Sorted(reg, after) && Mirrors(reg, after, content - {Key(entity, id)})
  {
    var c := reg.Def(entity).collection;
    OthersStay(reg, data, entity, id, data[c := data[c] - {id}]);
  }

  lemma ListShows(reg: Registry, data: Data, content: Content, list: seq<Item>, entity: string)
    requires Sorted(reg, data) && Mirrors(reg, data, content) && reg.Has(entity)
    requires ListsMap(list, data[reg.Def(entity).collection])
    ensures Lists(list, content, entity)
  {
    forall i | 0 <= i < |list| ensures Find(content, Key(entity, list[i][Id])) == Some(list[i]) {
      assert Find(content, Key(entity, list[i][Id])) == Lookup(reg, data, Key(entity, list[i][Id]));
    }
    forall k | k in content && k.entity == entity ensures content[k] in list {
      assert Find(content, k) == Lookup(reg, data, k);
    }
  }

  lemma KeysGrow(targets: seq<Target>, i: nat)
    requires i < |targets|
    ensures KeysOf(targets[..i + 1]) == KeysOf(targets[..i]) + {KeyOf(targets[i])}
  {
    assert targets[..i + 1] == targets[..i] + [targets[i]];
  }

  class InMemoryContentStore {
    const reg: Registry
    var data: Data
    ghost var content: Content
    /** Every call that changed the store, in order. */
    ghost var calls: seq<StoreOp>

    ghost predicate Valid()
      reads this
    {
      reg.Valid() && DistinctCollections(reg) && Sorted(reg, data) && Mirrors(reg, data, content)
    }

    constructor (registry: Registry)
      requires registry.Valid() && DistinctCollections(registry)
      ensures Valid() && reg == registry && content == map[] && calls == []
    {
      var collections := set n | n in registry.byName :: registry.Def(n).collection;
      reg := registry;
      data := map c | c in collections :: map[];
      content, calls := map[], [];
    }

    method LoadAll() returns (snapshot: Snapshot)
      requires Valid()
      ensures Shows(reg, snapshot, content)
    {
      snapshot := map[];
      for i := 0 to |reg.specs|
        invariant forall j :: 0 <= j < i ==>
          var c := reg.specs[j].def.collection; c in snapshot && ListsMap(snapshot[c], data[c])
      {
        var collection := reg.specs[i].def.collection;
        assert reg.specs[i].def.name in reg.byName;
        var list := ListOf(data[collection]);
        snapshot := snapshot[collection := list];
      }
      forall n | n in reg.byName ensures Lists(All(reg, snapshot, n), content, n) {
        var j :| 0 <= j < |reg.specs| && reg.specs[j].def.name == n;
        ListShows(reg, data, content, All(reg, snapshot, n), n);
      }
    }

    /** The registry rejects an unregistered type; every caller has resolved it first. */
    method Put(entity: string, item: Item)
      requires Valid() && reg.Has(entity) && Id in item
      modifies this
      ensures Valid() && content == old(content)[Key(entity, item[Id]) := item]
      ensures calls == old(calls) + [PutOp(entity, item)]
    {
      MirrorsAfterPut(reg, data, content, entity, item);
      var collection := reg.Def(entity).collection;
      data := data[collection := data[collection][item[Id] := item]];
      content, calls := content[Key(entity, item[Id]) := item], calls + [PutOp(entity, item)];
    }

    method Remove(targets: seq<Target>)
      requires Valid() && forall t :: t in targets ==> reg.Has(t.entity)
      modifies this
      ensures Valid() && content == old(content) - KeysOf(targets) && calls == old(calls) + [RemoveOp(targets)]
    {
      for i := 0 to |targets|
        invariant Valid() && content == old(content) - KeysOf(targets[..i]) && calls == old(calls)
      {
        MirrorsAfterDelete(reg, data, content, targets[i].entity, targets[i].ref.id);
        KeysGrow(targets, i);
        var collection := reg.Def(targets[i].entity).collection;
        data := data[collection := data[collection] - {targets[i].ref.id}];
        content := content - {KeyOf(targets[i])};
      }
      assert targets[..|targets|] == targets;
      calls := calls + [RemoveOp(targets)];
    }
  }
}
