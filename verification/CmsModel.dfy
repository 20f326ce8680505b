/** The shape of content: items, entity definitions, and the hooks an app registers for each. */
module CmsModel {
  import opened Prelude

  /** A property name of a stored item; the names the engine itself uses are told apart from the app's. */
  datatype Field =
    | Id | Status | PublishedAt | CreatedAt | UpdatedAt | UpdatedBy
    | PartitionKey | SortKey | EntityName
    | Named(name: string)

  /** A stored item; a property that is undefined is absent. */
  type Item = map<Field, string>

  /** Which item: its entity's name and its id. */
  datatype Key = Key(entity: string, id: string)

  type Content = map<Key, Item>

  const DRAFT := "draft"
  const PUBLISHED := "published"

  function Get(item: Item, f: Field): Option<string> {
    if f in item then Some(item[f]) else None
  }

  function Find(content: Content, k: Key): Option<Item> {
    if k in content then Some(content[k]) else None
  }

  /** Properties a hook gives; one it gives as undefined clears what was stored. */
  type Patch = map<Field, Option<string>>

  function Overlay(item: Item, patch: Patch): Item {
    map f | f in item.Keys + patch.Keys && (f in patch ==> patch[f].Some?) ::
      if f in patch then patch[f].value else item[f]
  }

  /** Rows without a status count as published. */
  function StatusOf(item: Item): string {
    Get(item, Status).GetOr(PUBLISHED)
  }

  datatype Ref = Ref(id: string, parentId: Option<string>)

  datatype ParentDef = ParentDef(name: string, key: string, field: Field)

  datatype EntityDef = EntityDef(name: string, collection: string, key: string, parent: Option<ParentDef>) {

    /** Single-table keys; a missing parent id is spelt out as the string conversion does. */
    function Address(ref: Ref): (string, string) {
      match parent
      case None => (key + "#" + ref.id, key)
      case Some(p) => (p.key + "#" + ref.parentId.GetOr("undefined"), key + "#" + ref.id)
    }

    predicate Owns(sk: string) {
      if parent.None? then sk == key else key + "#" <= sk
    }

    function RefOf(item: Item): Ref {
      Ref(Get(item, Id).GetOr("undefined"), if parent.Some? then Get(item, parent.value.field) else None)
    }
  }

  datatype CmsError = BadRequest | NotFound | UnknownEntity

  datatype Effect = PutEffect(entity: string, item: Item) | RemoveEffect(entity: string, ref: Ref)

  /** What a hook sees: the content when the write began, who and when, the stored item and the parent. */
  datatype Ctx = Ctx(index: Content, author: string, now: string, existing: Option<Item>, parent: Option<Item>)

  datatype PublishOptions = PublishOptions(includeChildren: bool, includeLinked: bool)

  /** A registered type: its definition and its hooks. */
  datatype EntitySpec = EntitySpec(
    def: EntityDef,
    fields: (Item, Ctx) -> Result<Patch, CmsError>,
    makeId: Option<(Item, Ctx) -> string>,
    defaultStatus: Option<(Item, Ctx) -> string>,
    fixedIds: Option<set<string>>,
    onDelete: (Item, Ctx) -> seq<Effect>,
    publish: Option<(Item, Ctx, PublishOptions) -> seq<Key>>)

  /**
   * The registered types in order and by name. `depth` numbers each type below
   * its parent, which a parent relation admits exactly when it has no cycle.
   */
  datatype Registry = Registry(specs: seq<EntitySpec>, byName: map<string, EntitySpec>, depth: map<string, nat>,
          height: nat) {

    function Has(name: string): bool {
      name in byName
    }

    function Def(name: string): EntityDef
      requires Has(name)
    {
      byName[name].def
    }

    /** The registry's own checks: names are registered once, and parents are registered. */
    ghost predicate Checked() {
      && (forall i :: 0 <= i < |specs| ==> specs[i].def.name in byName && byName[specs[i].def.name] == specs[i])
      && (forall i, j :: 0 <= i < j < |specs| ==> specs[i].def.name != specs[j].def.name)
      && (forall n :: n in byName ==> byName[n].def.name == n && exists i :: 0 <= i < |specs| && specs[i].def.name == n)
      && (forall n :: n in byName && byName[n].def.parent.Some? ==> byName[n].def.parent.value.name in byName)
    }

    ghost predicate Acyclic() {
      && (forall n :: n in byName ==> n in depth && depth[n] <= height)
      && (forall n :: n in byName && byName[n].def.parent.Some? && byName[n].def.parent.value.name in byName ==>
            depth[n] == depth[byName[n].def.parent.value.name] + 1)
    }

    /** Parent links live in a field of the app's own. */
    ghost predicate LinksNamed() {
      forall n :: n in byName && byName[n].def.parent.Some? ==> byName[n].def.parent.value.field.Named?
    }

    ghost predicate Valid() {
      Checked() && Acyclic() && LinksNamed()
    }
  }

  /** The parent an item of this type points at. */
  function ParentKey(reg: Registry, entity: string, item: Item): Option<Key>
    requires reg.Has(entity)
  {
    var p := reg.Def(entity).parent;
    if p.None? || p.value.field !in item then None else Some(Key(p.value.name, item[p.value.field]))
  }

  predicate IsFixed(reg: Registry, k: Key) {
    k.entity in reg.byName && reg.byName[k.entity].fixedIds.Some? && k.id in reg.byName[k.entity].fixedIds.value
  }

  /** Every item has its own id, under its own key, in a registered type. */
  ghost predicate Keyed(reg: Registry, content: Content) {
    forall k :: k in content ==> reg.Has(k.entity) && Id in content[k] && content[k][Id] == k.id
  }

  /** `k` is `root`, or hangs off it through the parent links of stored items. */
  ghost predicate Under(reg: Registry, content: Content, k: Key, root: Key)
    requires reg.Valid() && reg.Has(k.entity)
    decreases reg.depth[k.entity]
  {
    k == root ||
    (k in content && ParentKey(reg, k.entity, content[k]).Some?
      && Under(reg, content, ParentKey(reg, k.entity, content[k]).value, root))
  }
}
