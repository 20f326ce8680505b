/** The index a write reads through, and the cascade of a deletion over it. */
module CmsCascade {
  import opened Prelude
  import opened CmsModel
  import opened CmsIntegrity

  /** Every item, grouped by collection. */
  type Snapshot = map<string, seq<Item>>

  /** The list holds exactly the items of one type, each once. */
  ghost predicate Lists(list: seq<Item>, content: Content, entity: string) {
    && (forall i :: 0 <= i < |list| ==> Id in list[i] && Find(content, Key(entity, list[i][Id])) == Some(list[i]))
    && (forall i, j :: 0 <= i < j < |list| ==> list[i][Id] != list[j][Id])
    && (forall k :: k in content && k.entity == entity ==> content[k] in list)
  }

  ghost predicate Shows(reg: Registry, snapshot: Snapshot, content: Content) {
    forall n :: n in reg.byName ==> Lists(All(reg, snapshot, n), content, n)
  }

  function All(reg: Registry, snapshot: Snapshot, entity: string): seq<Item>
    requires reg.Has(entity)
  {
    var collection := reg.Def(entity).collection;
    if collection in snapshot then snapshot[collection] else []
  }

  function WithLink(items: seq<Item>, field: Field, parentId: string): (r: seq<Item>)
    ensures forall c :: c in r <==> c in items && Get(c, field) == Some(parentId)
    ensures |r| <= |items|
  {
    if items == [] then [] else
    var rest := WithLink(items[1..], field, parentId);
    if Get(items[0], field) == Some(parentId) then [items[0]] + rest else rest
  }

  /** The items of a child type that belong to one parent. */
  function ChildrenOf(reg: Registry, snapshot: Snapshot, entity: string, parentId: string): seq<Item>
    requires reg.Has(entity)
  {
    var p := reg.Def(entity).parent;
    if p.None? then [] else WithLink(All(reg, snapshot, entity), p.value.field, parentId)
  }

  /** The types whose parent is `name`, in registration order. */
  function ChildTypes(specs: seq<EntitySpec>, name: string): (r: seq<string>)
    ensures forall n :: n in r <==> exists i ::
            0 <= i < |specs| && specs[i].def.name == n && specs[i].def.parent.Some?
              && specs[i].def.parent.value.name == name
  {
    if specs == [] then [] else
    var rest := ChildTypes(specs[1..], name);
    var d := specs[0].def;
    assert forall i :: 0 <= i < |specs| ==> i == 0 || specs[i] == specs[1..][i - 1];
    assert forall i :: 0 <= i < |specs| - 1 ==> specs[1..][i] == specs[i + 1];
    if d.parent.Some? && d.parent.value.name == name then [d.name] + rest else rest
  }

  datatype Target = Target(entity: string, ref: Ref)

  function KeyOf(t: Target): Key {
    Key(t.entity, t.ref.id)
  }

  function KeysOf(ts: seq<Target>): set<Key> {
    set t | t in ts :: KeyOf(t)
  }

  predicate Distinct(ts: seq<Target>) {
    forall i, j :: 0 <= i < j < |ts| ==> KeyOf(ts[i]) != KeyOf(ts[j])
  }

  function Room(reg: Registry, entity: string): nat
    requires reg.Has(entity) && entity in reg.depth && reg.depth[entity] <= reg.height
  {
    reg.height - reg.depth[entity]
  }

  predicate ChildrenTypes(reg: Registry, entity: string, types: seq<string>) {
    forall n :: n in types ==> reg.Has(n) && reg.Def(n).parent.Some? && reg.Def(n).parent.value.name == entity
  }

  lemma ChildTypesRegistered(reg: Registry, entity: string)
    requires reg.Valid()
    ensures ChildrenTypes(reg, entity, ChildTypes(reg.specs, entity))
  {
  }

  lemma ChildIsDeeper(reg: Registry, entity: string, types: seq<string>)
    requires reg.Valid() && reg.Has(entity) && types != [] && ChildrenTypes(reg, entity, types)
    ensures reg.Has(types[0]) && Room(reg, types[0]) < Room(reg, entity) && ChildrenTypes(reg, entity, types[1..])
  {
    assert types[0] in types && types[0] in reg.byName;
    assert reg.depth[types[0]] == reg.depth[reg.byName[types[0]].def.parent.value.name] + 1;
  }

  /** The removal list of an item: itself, then its children's lists, type by type. */
  function Cascade(reg: Registry, snapshot: Snapshot, entity: string, item: Item): seq<Target>
    requires reg.Valid() && reg.Has(entity)
    decreases Room(reg, entity), 2, 0
  {
    ChildTypesRegistered(reg, entity);
    [Target(entity, reg.Def(entity).RefOf(item))]
      + CascadeTypes(reg, snapshot, entity, Get(item, Id).GetOr("undefined"), ChildTypes(reg.specs, entity))
  }

  function CascadeTypes(reg: Registry, snapshot: Snapshot, entity: string, id: string, types: seq<string>): seq<Target>
    requires reg.Valid() && reg.Has(entity)
    requires ChildrenTypes(reg, entity, types)
    decreases Room(reg, entity), 1, |types|
  {
    if types == [] then [] else
    ChildIsDeeper(reg, entity, types);
    CascadeItems(reg, snapshot, types[0], ChildrenOf(reg, snapshot, types[0], id))
      + CascadeTypes(reg, snapshot, entity, id, types[1..])
  }

  function CascadeItems(reg: Registry, snapshot: Snapshot, entity: string, items: seq<Item>): seq<Target>
    requires reg.Valid() && reg.Has(entity)
    decreases Room(reg, entity), 3, |items|
  {
    if items == [] then []
      else Cascade(reg, snapshot, entity, items[0]) + CascadeItems(reg, snapshot, entity, items[1..])
  }

  /** Listing one more child type of an item appends its items' cascades. */
  lemma TypesStep(reg: Registry, snapshot: Snapshot, entity: string, id: string, types: seq<string>,
          before: seq<Target>)
    requires reg.Valid() && reg.Has(entity) && types != [] && ChildrenTypes(reg, entity, types)
    ensures ChildrenTypes(reg, entity, types[1..]) && reg.Has(types[0]) && Room(reg, types[0]) < Room(reg, entity)
    ensures before + CascadeTypes(reg, snapshot, entity, id, types) ==
      before + CascadeItems(reg, snapshot, types[0], ChildrenOf(reg, snapshot, types[0], id))
        + CascadeTypes(reg, snapshot, entity, id, types[1..])
  {
    ChildIsDeeper(reg, entity, types);
  }

  // The tree of parent links ----------------------------------------------------------------

  /** `c` is stored and points at `parent`. */
  ghost predicate ChildOf(reg: Registry, content: Content, c: Key, parent: Key)
    requires reg.Valid() && Keyed(reg, content)
  {
    c in content && ParentKey(reg, c.entity, content[c]) == Some(parent)
  }

  lemma {:induction false} UnderTransitive(reg: Registry, content: Content, k: Key, mid: Key, root: Key)
    requires reg.Valid() && reg.Has(k.entity) && reg.Has(mid.entity) && Under(reg, content, k, mid)
    requires Under(reg, content, mid, root)
    ensures Under(reg, content, k, root)
    decreases reg.depth[k.entity]
  {
    if k != mid { UnderTransitive(reg, content, ParentKey(reg, k.entity, content[k]).value, mid, root); }
  }

  /** Something under `root` is under exactly one of its children. */
  lemma {:induction false} FirstChild(reg: Registry, content: Content, k: Key, root: Key) returns (c: Key)
    requires reg.Valid() && Keyed(reg, content) && reg.Has(k.entity) && Under(reg, content, k, root) && k != root
    ensures ChildOf(reg, content, c, root) && Under(reg, content, k, c)
    decreases reg.depth[k.entity]
  {
    var p := ParentKey(reg, k.entity, content[k]).value;
    if p == root {
      c := k;
    } else {
      c := FirstChild(reg, content, p, root);
    }
  }

  lemma {:induction false} UnderIsAChain(reg: Registry, content: Content, k: Key, a: Key, b: Key)
    requires reg.Valid() && reg.Has(k.entity) && reg.Has(a.entity) && reg.Has(b.entity)
    requires Under(reg, content, k, a) && Under(reg, content, k, b)
    ensures Under(reg, content, a, b) || Under(reg, content, b, a)
    decreases reg.depth[k.entity]
  {
    if k != a && k != b {
      UnderIsAChain(reg, content, ParentKey(reg, k.entity, content[k]).value, a, b);
    }
  }

  lemma SiblingsDisjoint(reg: Registry, content: Content, k: Key, a: Key, b: Key, root: Key)
    requires reg.Valid() && Keyed(reg, content) && reg.Has(k.entity) && ChildOf(reg, content, a, root)
    requires ChildOf(reg, content, b, root)
    requires Under(reg, content, k, a) && Under(reg, content, k, b)
    ensures a == b
  {
    UnderIsAChain(reg, content, k, a, b);
    if a != b {
      if Under(reg, content, a, b) { UnderIsDeeper(reg, content, a, b); } else { UnderIsDeeper(reg, content, b, a); }
    }
  }

  // The cascade is the subtree -----------------------------------------------------------------

  ghost predicate Exact(reg: Registry, content: Content, ts: seq<Target>, keys: set<Key>)
    requires reg.Valid() && Keyed(reg, content)
  {
    && Distinct(ts) && KeysOf(ts) == keys
    && (forall t :: t in ts ==> KeyOf(t) in content && t.ref == reg.Def(t.entity).RefOf(content[KeyOf(t)]))
  }

  ghost function Subtree(reg: Registry, content: Content, root: Key): set<Key>
    requires reg.Valid() && Keyed(reg, content)
  {
    set k | k in content && Under(reg, content, k, root)
  }

  ghost function Subtrees(reg: Registry, content: Content, entity: string, items: seq<Item>): set<Key>
    requires reg.Valid() && Keyed(reg, content)
  {
    set k, i | k in content && 0 <= i < |items| && Id in items[i]
      && Under(reg, content, k, Key(entity, items[i][Id])) :: k
  }

  ghost function TypeSubtrees(reg: Registry, content: Content, root: Key, types: seq<string>): set<Key>
    requires reg.Valid() && Keyed(reg, content)
  {
    set k, c | k in content && c in content && c.entity in types && ChildOf(reg, content, c, root)
      && Under(reg, content, k, c) :: k
  }

  lemma ExactConcat(reg: Registry, content: Content, a: seq<Target>, b: seq<Target>, ka: set<Key>, kb: set<Key>)
    requires reg.Valid() && Keyed(reg, content) && Exact(reg, content, a, ka) && Exact(reg, content, b, kb) && ka !! kb
    ensures Exact(reg, content, a + b, ka + kb)
  {
    var ts := a + b;
    assert forall t :: t in ts <==> t in a || t in b;
    forall i, j | 0 <= i < j < |ts| ensures KeyOf(ts[i]) != KeyOf(ts[j]) {
      if i < |a| <= j { assert KeyOf(ts[i]) in ka && KeyOf(ts[j]) in kb; }
    }
  }

  /** The children a listing gives are the stored items that point at the parent. */
  lemma ChildrenAre(reg: Registry, snapshot: Snapshot, content: Content, entity: string, root: Key)
    requires reg.Valid() && Keyed(reg, content) && Shows(reg, snapshot, content)
    requires reg.Has(entity) && reg.Def(entity).parent.Some? && reg.Def(entity).parent.value.name == root.entity
    ensures var cs := ChildrenOf(reg, snapshot, entity, root.id);
      && (forall c :: c in cs ==>
         Id in c && ChildOf(reg, content, Key(entity, c[Id]), root) && content[Key(entity, c[Id])] == c)
      && (forall k: Key :: k.entity == entity && ChildOf(reg, content, k, root) ==> content[k] in cs)
  {
    var list := All(reg, snapshot, entity);
    assert Lists(list, content, entity);
    var f := reg.Def(entity).parent.value.field;
    forall c | c in ChildrenOf(reg, snapshot, entity, root.id)
      ensures Id in c && ChildOf(reg, content, Key(entity, c[Id]), root) && content[Key(entity, c[Id])] == c
    {
      assert c in list && Get(c, f) == Some(root.id);
      var i :| 0 <= i < |list| && list[i] == c;
      assert Find(content, Key(entity, list[i][Id])) == Some(list[i]);
    }
  }

  predicate DistinctIds(items: seq<Item>) {
    && (forall c :: c in items ==> Id in c)
    && (forall i, j :: 0 <= i < j < |items| ==> Get(items[i], Id) != Get(items[j], Id))
  }

  lemma {:induction false} WithLinkDistinct(items: seq<Item>, field: Field, parentId: string)
    requires DistinctIds(items)
    ensures DistinctIds(WithLink(items, field, parentId))
  {
    if items != [] {
      var rest := WithLink(items[1..], field, parentId);
      WithLinkDistinct(items[1..], field, parentId);
      forall c | c in rest ensures Get(items[0], Id) != Get(c, Id) {
        var i :| 0 <= i < |items| - 1 && items[1..][i] == c;
        assert items[i + 1] == c;
      }
    }
  }

  lemma ChildrenDistinct(reg: Registry, snapshot: Snapshot, content: Content, entity: string, parentId: string)
    requires reg.Valid() && Shows(reg, snapshot, content) && reg.Has(entity)
    ensures DistinctIds(ChildrenOf(reg, snapshot, entity, parentId))
  {
    var list := All(reg, snapshot, entity);
    assert Lists(list, content, entity);
    if reg.Def(entity).parent.Some? { WithLinkDistinct(list, reg.Def(entity).parent.value.field, parentId); }
  }

  /** `items` are stored children of `root`, of one type, each once. */
  ghost predicate Siblings(reg: Registry, content: Content, entity: string, items: seq<Item>, root: Key)
    requires reg.Valid() && Keyed(reg, content)
  {
    && DistinctIds(items) && reg.Has(entity)
    && (forall c :: c in items ==> ChildOf(reg, content, Key(entity, c[Id]), root) && content[Key(entity, c[Id])] == c)
  }

  /** A deletion's removal list is exactly the stored items under its root, each once, addressed as stored. */
  lemma {:induction false} CascadeIsSubtree(reg: Registry, snapshot: Snapshot, content: Content, k: Key)
    requires reg.Valid() && Keyed(reg, content) && Shows(reg, snapshot, content) && k in content
    ensures Exact(reg, content, Cascade(reg, snapshot, k.entity, content[k]), Subtree(reg, content, k))
    decreases Room(reg, k.entity), 2, 0
  {
    var types := ChildTypes(reg.specs, k.entity);
    ChildTypesRegistered(reg, k.entity);
    ChildTypesDistinct(reg.specs, k.entity);
    TypesAreSubtrees(reg, snapshot, content, k, types);
    SelfAndBelow(reg, content, k, types);
    SelfFirst(reg, content, k, CascadeTypes(reg, snapshot, k.entity, k.id, types),
      TypeSubtrees(reg, content, k, types));
  }

  lemma SelfFirst(reg: Registry, content: Content, k: Key, rest: seq<Target>, below: set<Key>)
    requires reg.Valid() && Keyed(reg, content) && k in content && k !in below && Exact(reg, content, rest, below)
    ensures Exact(reg, content, [Target(k.entity, reg.Def(k.entity).RefOf(content[k]))] + rest, {k} + below)
  {
    var self := [Target(k.entity, reg.Def(k.entity).RefOf(content[k]))];
    assert self[0] in self && KeyOf(self[0]) == k;
    assert KeysOf(self) == {k};
    ExactConcat(reg, content, self, rest, {k}, below);
  }

  lemma SelfAndBelow(reg: Registry, content: Content, k: Key, types: seq<string>)
    requires reg.Valid() && Keyed(reg, content) && k in content && types == ChildTypes(reg.specs, k.entity)
    ensures k !in TypeSubtrees(reg, content, k, types)
    ensures {k} + TypeSubtrees(reg, content, k, types) == Subtree(reg, content, k)
  {
    var below := TypeSubtrees(reg, content, k, types);
    forall j | j in Subtree(reg, content, k) && j != k ensures j in below {
      var c := FirstChild(reg, content, j, k);
      assert c.entity in types;
    }
    forall j, c | j in content && c in content && ChildOf(reg, content, c, k) && Under(reg, content, j, c)
      ensures j in Subtree(reg, content, k) && j != k
    {
      assert Under(reg, content, c, k);
      UnderTransitive(reg, content, j, c, k);
      UnderIsDeeper(reg, content, j, c);
    }
  }

  lemma {:induction false} ChildTypesDistinct(specs: seq<EntitySpec>, name: string)
    requires forall i, j :: 0 <= i < j < |specs| ==> specs[i].def.name != specs[j].def.name
    ensures EachOnce(ChildTypes(specs, name))
  {
    if specs != [] {
      ChildTypesDistinct(specs[1..], name);
      assert forall i :: 0 <= i < |specs| - 1 ==> specs[1..][i] == specs[i + 1];
      assert specs[0].def.name !in ChildTypes(specs[1..], name);
    }
  }

  lemma {:induction false} TypesAreSubtrees(reg: Registry, snapshot: Snapshot, content: Content, root: Key,
          types: seq<string>)
    requires reg.Valid() && Keyed(reg, content) && Shows(reg, snapshot, content) && root in content
    requires ChildrenTypes(reg, root.entity, types) && EachOnce(types)
    ensures Exact(reg, content, CascadeTypes(reg, snapshot, root.entity, root.id, types),
            TypeSubtrees(reg, content, root, types))
    decreases Room(reg, root.entity), 1, |types|
  {
    if types != [] {
      var n, rest := types[0], types[1..];
      var items := ChildrenOf(reg, snapshot, n, root.id);
      ChildrenAre(reg, snapshot, content, n, root);
      ChildrenDistinct(reg, snapshot, content, n, root.id);
      ItemsAreSubtrees(reg, snapshot, content, n, items, root);
      TypesAreSubtrees(reg, snapshot, content, root, rest);
      SplitTypes(reg, content, root, types, items);
      ExactConcat(reg, content, CascadeItems(reg, snapshot, n, items),
        CascadeTypes(reg, snapshot, root.entity, root.id, rest),
                  Subtrees(reg, content, n, items), TypeSubtrees(reg, content, root, rest));
    }
  }

  lemma SplitTypes(reg: Registry, content: Content, root: Key, types: seq<string>, items: seq<Item>)
    requires reg.Valid() && Keyed(reg, content) && types != [] && types[0] !in types[1..]
    requires Siblings(reg, content, types[0], items, root)
    requires forall k: Key :: k.entity == types[0] && ChildOf(reg, content, k, root) ==> content[k] in items
    ensures Subtrees(reg, content, types[0], items) !! TypeSubtrees(reg, content, root, types[1..])
    ensures Subtrees(reg, content, types[0], items) + TypeSubtrees(reg, content, root, types[1..])
            == TypeSubtrees(reg, content, root, types)
  {
    var n := types[0];
    forall k, i, c | k in content && 0 <= i < |items| && Under(reg, content, k, Key(n, items[i][Id]))
      && ChildOf(reg, content, c, root) && Under(reg, content, k, c)
      ensures c.entity == n
    {
      assert items[i] in items;
      SiblingsDisjoint(reg, content, k, Key(n, items[i][Id]), c, root);
    }
    forall k: Key, c: Key | k in content && c.entity == n && ChildOf(reg, content, c, root) && Under(reg, content, k, c)
      ensures k in Subtrees(reg, content, n, items)
    {
      var i :| 0 <= i < |items| && items[i] == content[c];
      assert Key(n, items[i][Id]) == c;
    }
    assert forall t :: t in types <==> t == n || t in types[1..];
    forall k | k in Subtrees(reg, content, n, items) ensures k in TypeSubtrees(reg, content, root, types) {
      var i :| 0 <= i < |items| && Under(reg, content, k, Key(n, items[i][Id]));
      assert items[i] in items;
    }
  }

  lemma {:induction false} ItemsAreSubtrees(reg: Registry, snapshot: Snapshot, content: Content, entity: string,
          items: seq<Item>, root: Key)
    requires reg.Valid() && Keyed(reg, content) && Shows(reg, snapshot, content) && reg.Has(entity) && root in content
    requires Siblings(reg, content, entity, items, root)
    ensures Exact(reg, content, CascadeItems(reg, snapshot, entity, items), Subtrees(reg, content, entity, items))
    decreases Room(reg, entity), 3, |items|
  {
    if items != [] {
      var c, rest := items[0], items[1..];
      var k := Key(entity, c[Id]);
      assert c in items && ChildOf(reg, content, k, root);
      CascadeIsSubtree(reg, snapshot, content, k);
      ItemsAreSubtrees(reg, snapshot, content, entity, rest, root);
      SplitItems(reg, content, entity, items, root);
      ExactConcat(reg, content, Cascade(reg, snapshot, entity, c), CascadeItems(reg, snapshot, entity, rest),
                  Subtree(reg, content, k), Subtrees(reg, content, entity, rest));
    }
  }

  lemma SplitItems(reg: Registry, content: Content, entity: string, items: seq<Item>, root: Key)
    requires reg.Valid() && Keyed(reg, content) && items != [] && Siblings(reg, content, entity, items, root)
    ensures var k := Key(entity, items[0][Id]);
      && Subtree(reg, content, k) !! Subtrees(reg, content, entity, items[1..])
      && Subtree(reg, content, k) + Subtrees(reg, content, entity, items[1..]) == Subtrees(reg, content, entity, items)
  {
    var a, rest := Key(entity, items[0][Id]), items[1..];
    forall k, i | k in content && 0 <= i < |rest| && Under(reg, content, k, a)
      && Under(reg, content, k, Key(entity, rest[i][Id]))
      ensures false
    {
      assert rest[i] == items[i + 1] && items[0] in items && items[i + 1] in items;
      SiblingsDisjoint(reg, content, k, a, Key(entity, rest[i][Id]), root);
    }
    assert forall i :: 0 <= i < |rest| ==> rest[i] == items[i + 1];
    forall k | k in Subtrees(reg, content, entity, items)
      ensures k in Subtree(reg, content, a) + Subtrees(reg, content, entity, rest) {
      var i :| 0 <= i < |items| && Under(reg, content, k, Key(entity, items[i][Id]));
      if i > 0 { assert rest[i - 1] == items[i]; }
    }
  }
}
