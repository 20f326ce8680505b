/** The generic writes, as functions of the stored content. */
module CmsWrites {
  import opened Prelude
  import opened CmsModel

  /** The clock as a write reads it: once for its context, once when it stamps a publication. */
  datatype Clock = Clock(now: string, stamp: string)

  /** An item by id; an unsaved fixed id reads as an empty stub. */
  function LocateById(reg: Registry, content: Content, name: string, id: string): Result<Item, CmsError> {
    if Key(name, id) in content then Ok(content[Key(name, id)])
    else if IsFixed(reg, Key(name, id)) then Ok(map[Id := id])
    else Err(NotFound)
  }

  /** The parent a child of type `name` names; types without parents have none. */
  function ParentOf(reg: Registry, content: Content, name: string, parentId: Option<string>): Result<Option<Item>,
          CmsError>
    requires reg.Has(name)
  {
    var parent := reg.Def(name).parent;
    if parent.None? then Ok(None)
    else if parentId.GetOr("") == "" then Err(BadRequest)
    else match LocateById(reg, content, parent.value.name, parentId.value)
      case Ok(p) => Ok(Some(p))
      case Err(e) => Err(e)
  }

  function Locate(reg: Registry, content: Content, name: string, ref: Ref): Result<Item, CmsError>
    requires reg.Has(name)
  {
    var def := reg.Def(name);
    var scoped := def.parent.Some? && ref.parentId.GetOr("") != "";
    if scoped && ParentOf(reg, content, name, ref.parentId).Err?
      then Err(ParentOf(reg, content, name, ref.parentId).error)
    else if Key(name, ref.id) in content && scoped
      && Get(content[Key(name, ref.id)], def.parent.value.field) != ref.parentId then Err(NotFound)
    else LocateById(reg, content, name, ref.id)
  }

  function Set(item: Item, f: Field, v: Option<string>): Item {
    if v.Some? then item[f := v.value] else item - {f}
  }

  /** `publishedAt` moves only when something becomes published. */
  function StampedAt(status: string, previous: Option<Item>, stamp: string): Option<string> {
    var before := if previous.Some? then Get(previous.value, PublishedAt) else None;
    if status == PUBLISHED && !(previous.Some? && StatusOf(previous.value) == PUBLISHED) then Some(stamp) else before
  }

  function NewStatus(spec: EntitySpec, input: Item, ctx: Ctx): string {
    if Status in input then input[Status]
    else if ctx.existing.Some? then StatusOf(ctx.existing.value)
    else if spec.defaultStatus.Some? then spec.defaultStatus.value(input, ctx)
    else if ctx.parent.Some? then StatusOf(ctx.parent.value)
    else DRAFT
  }

  /** The item to store: the spec's fields over the stored ones, then everything the engine owns. */
  function Compose(spec: EntitySpec, id: string, input: Item, ctx: Ctx, stamp: string): Result<Item, CmsError> {
    match spec.fields(input, ctx)
    case Err(e) => Err(e)
    case Ok(fields) => Ok(Assemble(spec.def.parent, id, fields, NewStatus(spec, input, ctx), ctx, stamp))
  }

  function Assemble(parent: Option<ParentDef>, id: string, fields: Patch, status: string, ctx: Ctx,
          stamp: string): Item {
    var base := Overlay(ctx.existing.GetOr(map[]), fields)[Id := id];
    var linked :=
      if parent.Some? then Set(base, parent.value.field, if ctx.parent.Some? then Get(ctx.parent.value, Id) else None)
        else base;
    var created := if ctx.existing.Some? then Get(ctx.existing.value, CreatedAt).GetOr(ctx.now) else ctx.now;
    Set(linked[Status := status], PublishedAt, StampedAt(status, ctx.existing, stamp))
      + map[CreatedAt := created, UpdatedAt := ctx.now, UpdatedBy := ctx.author]
  }

  datatype Op =
    | Create(name: string, input: Item, author: string, parentId: Option<string>, freshId: string, clock: Clock)
    | Update(name: string, ref: Ref, input: Item, author: string, clock: Clock)
    | Remove(name: string, ref: Ref, author: string, clock: Clock)
    | RemoveDraft(name: string, id: string, author: string, clock: Clock)
    | SetStatus(status: string, items: seq<Key>, author: string, clock: Clock)
    | Publish(name: string, id: string, author: string, includeChildren: Option<bool>, includeLinked: Option<bool>,
      clock: Clock)

  datatype Outcome = Wrote(item: Item) | Removed(parent: Option<Item>) | Updated(count: nat)

  type Effected = (Content, Result<Outcome, CmsError>)

  function CreateItem(reg: Registry, content: Content, op: Op): Effected
    requires op.Create? && reg.Has(op.name)
  {
    var spec := reg.byName[op.name];
    if spec.fixedIds.Some? then (content, Err(BadRequest)) else
    match ParentOf(reg, content, op.name, op.parentId)
    case Err(e) => (content, Err(e))
    case Ok(parent) =>
      var ctx := Ctx(content, op.author, op.clock.now, None, parent);
      var id := NewId(spec, op.input, ctx, op.freshId);
      match Compose(spec, id, op.input, ctx, op.clock.stamp)
      case Err(e) => (content, Err(e))
      case Ok(item) => (content[Key(op.name, id) := item], Ok(Wrote(item)))
  }

  function NewId(spec: EntitySpec, input: Item, ctx: Ctx, freshId: string): string {
    if spec.makeId.Some? then spec.makeId.value(input, ctx) else freshId
  }

  function UpdateItem(reg: Registry, content: Content, op: Op): Effected
    requires op.Update? && reg.Has(op.name)
  {
    var spec := reg.byName[op.name];
    match Locate(reg, content, op.name, op.ref)
    case Err(e) => (content, Err(e))
    case Ok(existing) =>
      match ParentOf(reg, content, op.name, LinkOf(spec.def, existing))
      case Err(e) => (content, Err(e))
      case Ok(parent) =>
        var id := Get(existing, Id).GetOr("undefined");
        match Compose(spec, id, op.input, Ctx(content, op.author, op.clock.now, Some(existing), parent), op.clock.stamp)
        case Err(e) => (content, Err(e))
        case Ok(item) => (content[Key(op.name, id) := item], Ok(Wrote(item)))
  }

  function LinkOf(def: EntityDef, item: Item): Option<string> {
    if def.parent.Some? then Get(item, def.parent.value.field) else None
  }

  /** The keys the effects remove. */
  function EffectRemovals(effects: seq<Effect>): set<Key> {
    set e | e in effects && e.RemoveEffect? :: Key(e.entity, e.ref.id)
  }

  function ApplyPuts(content: Content, effects: seq<Effect>): Content
    decreases |effects|
  {
    if effects == [] then content else
    var e := effects[0];
    ApplyPuts(if e.PutEffect? then content[Key(e.entity, Get(e.item, Id).GetOr("undefined")) := e.item] else content,
      effects[1..])
  }

  /** Everything a deletion takes: the item, all that hangs off it, and what its effects remove. */
  ghost function Doomed(reg: Registry, content: Content, root: Key, effects: seq<Effect>): set<Key>
    requires reg.Valid() && Keyed(reg, content)
  {
    (set k | k in content && Under(reg, content, k, root)) + EffectRemovals(effects)
  }

  /** What a deletion reads before it writes: the item and its effects. */
  datatype Readied = Readied(existing: Item, effects: seq<Effect>)

  function ReadyRemoval(reg: Registry, content: Content, name: string, ref: Ref, author: string,
          clock: Clock): Result<Readied, CmsError>
    requires reg.Has(name)
  {
    match Locate(reg, content, name, ref)
    case Err(e) => Err(e)
    case Ok(existing) =>
      match ParentOf(reg, content, name, LinkOf(reg.Def(name), existing))
      case Err(e) => Err(e)
      case Ok(parent) =>
        Ok(Readied(existing,
          reg.byName[name].onDelete(existing, Ctx(content, author, clock.now, Some(existing), parent))))
  }

  /** What a deletion returns: the parent as it is stored afterwards. */
  function ParentOutcome(reg: Registry, content: Content, name: string, existing: Item): Result<Outcome, CmsError>
    requires reg.Has(name)
  {
    var def := reg.Def(name);
    if def.parent.None? then Ok(Removed(None)) else
    match LocateById(reg, content, def.parent.value.name, LinkOf(def, existing).GetOr("undefined"))
    case Err(e) => Err(e)
    case Ok(p) => Ok(Removed(Some(p)))
  }

  ghost function RemoveItem(reg: Registry, content: Content, name: string, ref: Ref, author: string,
          clock: Clock): Effected
    requires reg.Valid() && Keyed(reg, content) && reg.Has(name)
  {
    if reg.byName[name].fixedIds.Some? then (content, Err(BadRequest)) else
    match ReadyRemoval(reg, content, name, ref, author, clock)
    case Err(e) => (content, Err(e))
    case Ok(r) =>
      var after := ApplyPuts(content - Doomed(reg, content, Key(name, ref.id), r.effects), r.effects);
      (after, ParentOutcome(reg, after, name, r.existing))
  }

  ghost function RemoveDraftItem(reg: Registry, content: Content, op: Op): Effected
    requires op.RemoveDraft? && reg.Valid() && Keyed(reg, content) && reg.Has(op.name)
  {
    match LocateById(reg, content, op.name, op.id)
    case Err(e) => (content, Err(e))
    case Ok(existing) =>
      if StatusOf(existing) != DRAFT then (content, Err(BadRequest))
      else
        var removed := RemoveItem(reg, content, op.name, reg.Def(op.name).RefOf(existing), op.author, op.clock);
        (removed.0, if removed.1.Err? then removed.1 else Ok(Removed(None)))
  }

  /** Why a status change is refused as a whole, if it is: the first unknown type or id. */
  function Unknown(reg: Registry, content: Content, items: seq<Key>): Option<CmsError> {
    if items == [] then None
    else if !reg.Has(items[0].entity) then Some(BadRequest)
    else if items[0] !in content then Some(NotFound)
    else Unknown(reg, content, items[1..])
  }

  function Restatus(found: Item, status: string, author: string, clock: Clock): Item {
    Set(found[Status := status], PublishedAt, StampedAt(status, Some(found), clock.stamp))
      + map[UpdatedAt := clock.now, UpdatedBy := author]
  }

  /** The puts in order, each from the item as first found, and how many there are. */
  function PutStatuses(found: Content, content: Content, items: seq<Key>, status: string, author: string,
          clock: Clock): (Content, nat)
    requires forall k :: k in items ==> k in found
    decreases |items|
  {
    if items == [] then (content, 0)
    else if StatusOf(found[items[0]]) == status then PutStatuses(found, content, items[1..], status, author, clock)
    else
      var rest :=
        PutStatuses(found, content[items[0] := Restatus(found[items[0]], status, author, clock)], items[1..], status,
          author, clock);
      (rest.0, rest.1 + 1)
  }

  lemma {:induction false} NoneUnknown(reg: Registry, content: Content, items: seq<Key>)
    ensures Unknown(reg, content, items).None? <==> forall k :: k in items ==> reg.Has(k.entity) && k in content
  {
    if items != [] {
      NoneUnknown(reg, content, items[1..]);
      assert forall k :: k in items <==> k == items[0] || k in items[1..];
    }
  }

  function SetStatuses(reg: Registry, content: Content, status: string, items: seq<Key>, author: string,
          clock: Clock): Effected {
    var unknown := Unknown(reg, content, items);
    if unknown.Some? then (content, Err(unknown.value))
    else
      NoneUnknown(reg, content, items);
      var puts := PutStatuses(content, content, items, status, author, clock);
      (puts.0, Ok(Updated(puts.1)))
  }

  /** What a publication publishes: the item, then whatever its type's hook names. */
  function PublishTargets(reg: Registry, content: Content, op: Op): Result<seq<Key>, CmsError>
    requires op.Publish? && reg.Has(op.name)
  {
    match LocateById(reg, content, op.name, op.id)
    case Err(e) => Err(e)
    case Ok(existing) =>
      if reg.byName[op.name].publish.None? then Err(BadRequest) else
      var linked := op.includeLinked == Some(true);
      var children := linked || op.includeChildren != Some(false);
      var ctx := Ctx(content, op.author, op.clock.now, Some(existing), None);
      Ok([Key(op.name, op.id)] + reg.byName[op.name].publish.value(existing, ctx, PublishOptions(children, linked)))
  }

  function PublishItem(reg: Registry, content: Content, op: Op): Effected
    requires op.Publish? && reg.Has(op.name)
  {
    match PublishTargets(reg, content, op)
    case Err(e) => (content, Err(e))
    case Ok(items) =>
      var (after, r) := SetStatuses(reg, content, PUBLISHED, items, op.author, op.clock);
      if r.Err? then (after, r) else
      match LocateById(reg, after, op.name, op.id)
      case Err(e) => (after, Err(e))
      case Ok(item) => (after, Ok(Wrote(item)))
  }

  /** One write on the content. */
  ghost function Step(reg: Registry, content: Content, op: Op): Effected
    requires reg.Valid() && Keyed(reg, content)
  {
    if op.SetStatus? then SetStatuses(reg, content, op.status, op.items, op.author, op.clock)
    else if !reg.Has(op.name) then (content, Err(UnknownEntity))
    else if op.Create? then CreateItem(reg, content, op)
    else if op.Update? then UpdateItem(reg, content, op)
    else if op.Remove? then RemoveItem(reg, content, op.name, op.ref, op.author, op.clock)
    else if op.RemoveDraft? then RemoveDraftItem(reg, content, op)
    else PublishItem(reg, content, op)
  }
}
