/** What every write keeps: parents exist, identities and links never change, stamps move as promised. */
module CmsIntegrity {
  import opened Prelude
  import opened CmsModel
  import opened CmsWrites

  ghost predicate Exists(reg: Registry, content: Content, k: Key) {
    k in content || IsFixed(reg, k)
  }

  /** The item's parent link, where its type has parents, names something that exists. */
  ghost predicate HasParent(reg: Registry, content: Content, entity: string, item: Item)
    requires reg.Has(entity)
  {
    reg.Def(entity).parent.Some? ==>
      var p := ParentKey(reg, entity, item);
      p.Some? && p.value.id != "" && Exists(reg, content, p.value)
  }

  ghost predicate NoOrphans(reg: Registry, content: Content)
    requires Keyed(reg, content)
  {
    forall k :: k in content ==> HasParent(reg, content, k.entity, content[k])
  }

  /** Created at some time; and, unless its type has fixed ids, published at some time if it is published. */
  ghost predicate Stamped(reg: Registry, content: Content)
    requires Keyed(reg, content)
  {
    forall k :: k in content ==>
      && CreatedAt in content[k]
      && (StatusOf(content[k]) == PUBLISHED && reg.byName[k.entity].fixedIds.None? ==> PublishedAt in content[k])
  }

  ghost predicate Sound(reg: Registry, content: Content) {
    Keyed(reg, content) && NoOrphans(reg, content) && Stamped(reg, content)
  }

  /** What a write may not do to an item that was there before it and is there after it. */
  predicate Kept(reg: Registry, entity: string, before: Item, after: Item)
    requires reg.Has(entity)
  {
    && Get(after, Id) == Get(before, Id)
    && ParentKey(reg, entity, after) == ParentKey(reg, entity, before)
    && Get(after, CreatedAt) == Get(before, CreatedAt)
    && (Get(after, PublishedAt) != Get(before, PublishedAt) ==>
       StatusOf(before) != PUBLISHED && StatusOf(after) == PUBLISHED)
    && (StatusOf(before) != PUBLISHED && StatusOf(after) == PUBLISHED ==> PublishedAt in after)
  }

  ghost predicate AllKept(reg: Registry, before: Content, after: Content)
    requires Keyed(reg, before)
  {
    forall k :: k in before && k in after ==> Kept(reg, k.entity, before[k], after[k])
  }

  // Contracts on the hooks --------------------------------------------------------------

  predicate Childless(reg: Registry, entity: string) {
    forall n :: n in reg.byName && reg.Def(n).parent.Some? ==> reg.Def(n).parent.value.name != entity
  }

  /** A put effect rewrites only the app's own properties; a link is not one of them. */
  predicate Agrees(reg: Registry, entity: string, before: Item, after: Item)
    requires reg.Has(entity)
  {
    && Get(after, Id) == Get(before, Id) && Get(after, Status) == Get(before, Status)
    && Get(after, PublishedAt) == Get(before, PublishedAt) && Get(after, CreatedAt) == Get(before, CreatedAt)
    && ParentKey(reg, entity, after) == ParentKey(reg, entity, before)
  }

  ghost predicate EffectSafe(reg: Registry, content: Content, doomed: set<Key>, e: Effect) {
    match e
    case RemoveEffect(entity, _) => reg.Has(entity) && Childless(reg, entity)
    case PutEffect(entity, item) =>
      && reg.Has(entity) && Id in item
      && var k := Key(entity, item[Id]);
      && k in content && k !in doomed && Agrees(reg, entity, content[k], item)
  }

  ghost predicate EffectsSafe(reg: Registry, content: Content, root: Key, effects: seq<Effect>) {
    reg.Valid() && Keyed(reg, content) ==>
      forall e :: e in effects ==> EffectSafe(reg, content, Doomed(reg, content, root, effects), e)
  }

  /**
   * What the engine expects of an app's hooks: made ids are new, and deletion
   * effects remove only items nothing hangs off and rewrite only the app's own
   * properties of items that stay.
   */
  ghost predicate HooksSafe(reg: Registry) {
    && (forall n: string, input: Item, ctx: Ctx ::
       n in reg.byName && reg.byName[n].makeId.Some? ==> Key(n, reg.byName[n].makeId.value(input, ctx)) !in ctx.index)
    && (forall n: string, item: Item, ctx: Ctx :: n in reg.byName && Id in item ==>
          EffectsSafe(reg, ctx.index, Key(n, item[Id]), reg.byName[n].onDelete(item, ctx)))
  }

  // One composed item ------------------------------------------------------------------------

  lemma AssembleFacts(p: Option<ParentDef>, id: string, fields: Patch, status: string, ctx: Ctx, stamp: string)
    requires p.Some? ==> p.value.field.Named? && ctx.parent.Some? && Id in ctx.parent.value
    ensures var item := Assemble(p, id, fields, status, ctx, stamp);
      && Get(item, Id) == Some(id) && Get(item, Status) == Some(status)
      && Get(item, PublishedAt) == StampedAt(status, ctx.existing, stamp)
      && Get(item, CreatedAt)
         == Some(if ctx.existing.Some? then Get(ctx.existing.value, CreatedAt).GetOr(ctx.now) else ctx.now)
      && (p.Some? ==> Get(item, p.value.field) == Some(ctx.parent.value[Id]))
  {
  }

  /** The rest of a stored item: who wrote it and when, and the spec's fields over what was stored. */
  lemma AssembleKeepsFields(p: Option<ParentDef>, id: string, fields: Patch, status: string, ctx: Ctx, stamp: string,
          name: string)
    requires p.Some? ==> p.value.field.Named? && p.value.field != Named(name)
    ensures var item := Assemble(p, id, fields, status, ctx, stamp);
      && Get(item, UpdatedAt) == Some(ctx.now) && Get(item, UpdatedBy) == Some(ctx.author)
      && Get(item, Named(name)) == if Named(name) in fields then fields[Named(name)]
         else Get(ctx.existing.GetOr(map[]), Named(name))
  {
  }

  /**
   * A new item has the status it was given, else its type's default, else its
   * parent's, and a new root starts as a draft; it is stamped if it starts published.
   */
  lemma CreatedStatus(reg: Registry, content: Content, op: Op)
    requires reg.Valid() && Keyed(reg, content) && op.Create? && reg.Has(op.name) && CreateItem(reg, content, op).1.Ok?
    ensures var item := CreateItem(reg, content, op).1.value.item;
      var parent := ParentOf(reg, content, op.name, op.parentId).value;
      && (Status in op.input ==> StatusOf(item) == op.input[Status])
      && (Status !in op.input && reg.byName[op.name].defaultStatus.Some? ==>
            StatusOf(item)
              == reg.byName[op.name].defaultStatus.value(op.input, Ctx(content, op.author, op.clock.now, None, parent)))
      && (Status !in op.input && reg.byName[op.name].defaultStatus.None? ==>
            StatusOf(item) == if parent.Some? then StatusOf(parent.value) else DRAFT)
      && Get(item, PublishedAt) == (if StatusOf(item) == PUBLISHED then Some(op.clock.stamp) else None)
  {
    var spec := reg.byName[op.name];
    var ctx := Ctx(content, op.author, op.clock.now, None, ParentOf(reg, content, op.name, op.parentId).value);
    var id := NewId(spec, op.input, ctx, op.freshId);
    ParentFound(reg, content, op.name, op.parentId);
    AssembleFacts(spec.def.parent, id, spec.fields(op.input, ctx).value, NewStatus(spec, op.input, ctx), ctx,
      op.clock.stamp);
  }

  /** An update keeps the status unless one is given, and stamps the item exactly when it becomes published. */
  lemma UpdatedStatus(reg: Registry, content: Content, op: Op)
    requires reg.Valid() && Sound(reg, content) && op.Update? && reg.Has(op.name) && UpdateItem(reg, content, op).1.Ok?
    ensures var item := UpdateItem(reg, content, op).1.value.item;
      var existing := Locate(reg, content, op.name, op.ref).value;
      && StatusOf(item) == Get(op.input, Status).GetOr(StatusOf(existing))
      && Get(item, PublishedAt) == if StatusOf(existing) != PUBLISHED && StatusOf(item) == PUBLISHED
         then Some(op.clock.stamp) else Get(existing, PublishedAt)
  {
    var spec, existing := reg.byName[op.name], Locate(reg, content, op.name, op.ref).value;
    var link := LinkOf(spec.def, existing);
    ParentFound(reg, content, op.name, link);
    var ctx := Ctx(content, op.author, op.clock.now, Some(existing), ParentOf(reg, content, op.name, link).value);
    AssembleFacts(spec.def.parent, Get(existing, Id).GetOr("undefined"), spec.fields(op.input, ctx).value,
      NewStatus(spec, op.input, ctx), ctx, op.clock.stamp);
  }

  /** A reference that names a parent, for a type that has one. */
  predicate Scoped(def: EntityDef, ref: Ref) {
    def.parent.Some? && ref.parentId.GetOr("") != ""
  }

  /**
   * In sound content a stored item is found exactly when a scoped reference
   * names its own parent; an item not stored is found, as a stub, exactly for a
   * fixed id under a parent that exists.
   */
  lemma LocatesIff(reg: Registry, content: Content, name: string, ref: Ref)
    requires reg.Valid() && Sound(reg, content) && reg.Has(name)
    ensures var k, def, found := Key(name, ref.id), reg.Def(name), Locate(reg, content, name, ref);
      && (found.Ok? <==>
            if k in content then Scoped(def, ref) ==> Get(content[k], def.parent.value.field) == ref.parentId
            else
              && IsFixed(reg, k)
              && (Scoped(def, ref) ==> Exists(reg, content, Key(def.parent.value.name, ref.parentId.value))))
      && (found.Ok? ==> found.value == if k in content then content[k] else map[Id := ref.id])
  {
    var k := Key(name, ref.id);
    if k in content { assert HasParent(reg, content, name, content[k]); }
  }

  /** A stored item whose links resolve never fails on its parent. */
  lemma ParentResolves(reg: Registry, content: Content, k: Key)
    requires reg.Valid() && Sound(reg, content) && k in content
    ensures var r := ParentOf(reg, content, k.entity, LinkOf(reg.Def(k.entity), content[k]));
      && r.Ok?
      && (reg.Def(k.entity).parent.Some? ==>
         r.value.Some? && Get(r.value.value, Id) == LinkOf(reg.Def(k.entity), content[k]))
  {
    assert HasParent(reg, content, k.entity, content[k]);
  }

  /** Putting an item that keeps what was stored under its key keeps the content sound. */
  lemma PutKeepsSound(reg: Registry, content: Content, k: Key, item: Item)
    requires reg.Valid() && Sound(reg, content) && reg.Has(k.entity)
    requires Get(item, Id) == Some(k.id) && CreatedAt in item && HasParent(reg, content, k.entity, item)
    requires StatusOf(item) == PUBLISHED && reg.byName[k.entity].fixedIds.None? ==> PublishedAt in item
    requires k in content ==> Kept(reg, k.entity, content[k], item)
    ensures Sound(reg, content[k := item]) && AllKept(reg, content, content[k := item])
  {
    var after := content[k := item];
    forall j | j in after ensures HasParent(reg, after, j.entity, after[j]) {
      if j != k { assert HasParent(reg, content, j.entity, content[j]); }
    }
  }

  lemma ParentFound(reg: Registry, content: Content, name: string, parentId: Option<string>)
    requires reg.Valid() && Keyed(reg, content) && reg.Has(name) && ParentOf(reg, content, name, parentId).Ok?
    ensures var parent := ParentOf(reg, content, name, parentId).value;
      reg.Def(name).parent.Some? ==>
        && parent.Some? && parentId.Some? && parentId.value != "" && Get(parent.value, Id) == parentId
        && Exists(reg, content, Key(reg.Def(name).parent.value.name, parentId.value))
  {
  }

  lemma NewIdIsNew(reg: Registry, op: Op, ctx: Ctx)
    requires HooksSafe(reg) && op.Create? && reg.Has(op.name) && Key(op.name, op.freshId) !in ctx.index
    ensures Key(op.name, NewId(reg.byName[op.name], op.input, ctx, op.freshId)) !in ctx.index
  {
  }

  /** A new item points at the parent found for it. */
  lemma AssembledFits(reg: Registry, content: Content, name: string, parentId: Option<string>, id: string,
          fields: Patch, status: string, ctx: Ctx, stamp: string)
    requires reg.Valid() && Keyed(reg, content) && reg.Has(name)
    requires ParentOf(reg, content, name, parentId) == Ok(ctx.parent) && ctx.existing.None?
    ensures var item := Assemble(reg.Def(name).parent, id, fields, status, ctx, stamp);
      && HasParent(reg, content, name, item) && Get(item, Id) == Some(id) && CreatedAt in item
      && (StatusOf(item) == PUBLISHED ==> PublishedAt in item)
  {
    ParentFound(reg, content, name, parentId);
    AssembleFacts(reg.Def(name).parent, id, fields, status, ctx, stamp);
  }

  lemma CreateKeeps(reg: Registry, content: Content, op: Op)
    requires reg.Valid() && HooksSafe(reg) && Sound(reg, content) && op.Create? && reg.Has(op.name)
    requires Key(op.name, op.freshId) !in content
    ensures var after := CreateItem(reg, content, op).0; Sound(reg, after) && AllKept(reg, content, after)
  {
    var spec, r := reg.byName[op.name], CreateItem(reg, content, op);
    if r.1.Ok? {
      var ctx := Ctx(content, op.author, op.clock.now, None, ParentOf(reg, content, op.name, op.parentId).value);
      var id := NewId(spec, op.input, ctx, op.freshId);
      NewIdIsNew(reg, op, ctx);
      AssembledFits(reg, content, op.name, op.parentId, id, spec.fields(op.input, ctx).value,
        NewStatus(spec, op.input, ctx), ctx, op.clock.stamp);
      PutKeepsSound(reg, content, Key(op.name, id), r.1.value.item);
    }
  }

  /** An item composed over a stored one, or over a fixed id's stub, fits in its place. */
  lemma UpdatedFits(reg: Registry, content: Content, k: Key, fields: Patch, status: string, ctx: Ctx, stamp: string)
    requires reg.Valid() && Sound(reg, content) && reg.Has(k.entity) && LocateById(reg, content, k.entity, k.id).Ok?
    requires ctx.existing == Some(LocateById(reg, content, k.entity, k.id).value)
    requires ParentOf(reg, content, k.entity, LinkOf(reg.Def(k.entity), ctx.existing.value)) == Ok(ctx.parent)
    ensures var item := Assemble(reg.Def(k.entity).parent, k.id, fields, status, ctx, stamp);
      && Get(item, Id) == Some(k.id) && CreatedAt in item && HasParent(reg, content, k.entity, item)
      && (StatusOf(item) == PUBLISHED && reg.byName[k.entity].fixedIds.None? ==> PublishedAt in item)
      && (k in content ==> Kept(reg, k.entity, content[k], item))
  {
    ParentFound(reg, content, k.entity, LinkOf(reg.Def(k.entity), ctx.existing.value));
    AssembleFacts(reg.Def(k.entity).parent, k.id, fields, status, ctx, stamp);
  }

  lemma UpdateKeeps(reg: Registry, content: Content, op: Op)
    requires reg.Valid() && Sound(reg, content) && op.Update? && reg.Has(op.name)
    ensures var after := UpdateItem(reg, content, op).0; Sound(reg, after) && AllKept(reg, content, after)
  {
    var spec, r := reg.byName[op.name], UpdateItem(reg, content, op);
    if r.1.Ok? {
      var existing := Locate(reg, content, op.name, op.ref).value;
      var ctx :=
        Ctx(content, op.author, op.clock.now, Some(existing),
          ParentOf(reg, content, op.name, LinkOf(spec.def, existing)).value);
      UpdatedFits(reg, content, Key(op.name, op.ref.id), spec.fields(op.input, ctx).value,
        NewStatus(spec, op.input, ctx), ctx, op.clock.stamp);
      PutKeepsSound(reg, content, Key(op.name, op.ref.id), r.1.value.item);
    }
  }

  /** The context an update hands its hooks. */
  function UpdateCtx(reg: Registry, content: Content, op: Op): Ctx
    requires op.Update? && reg.Has(op.name) && Key(op.name, op.ref.id) in content
    requires ParentOf(reg, content, op.name, LinkOf(reg.Def(op.name), content[Key(op.name, op.ref.id)])).Ok?
  {
    var existing := content[Key(op.name, op.ref.id)];
    Ctx(content, op.author, op.clock.now, Some(existing),
      ParentOf(reg, content, op.name, LinkOf(reg.Def(op.name), existing)).value)
  }

  /**
   * Updating a stored item, by id or scoped to its own parent, always finds the
   * item and its parent: it succeeds exactly when the spec's fields do, and
   * fails with their error, in the one context the update builds.
   */
  lemma UpdateFindsParent(reg: Registry, content: Content, op: Op)
    requires reg.Valid() && Sound(reg, content) && op.Update? && reg.Has(op.name) && Key(op.name, op.ref.id) in content
    requires Scoped(reg.Def(op.name), op.ref) ==>
             LinkOf(reg.Def(op.name), content[Key(op.name, op.ref.id)]) == op.ref.parentId
    ensures Locate(reg, content, op.name, op.ref) == Ok(content[Key(op.name, op.ref.id)])
    ensures ParentOf(reg, content, op.name, LinkOf(reg.Def(op.name), content[Key(op.name, op.ref.id)])).Ok?
    ensures var fields, r := reg.byName[op.name].fields(op.input, UpdateCtx(reg, content, op)),
            UpdateItem(reg, content, op).1;
      && (r.Ok? <==> fields.Ok?)
      && (r.Err? ==> r == Err(fields.error))
  {
    LocatesIff(reg, content, op.name, op.ref);
    ParentResolves(reg, content, Key(op.name, op.ref.id));
  }

  // Status changes -----------------------------------------------------------------------------

  lemma RestatusFacts(found: Item, status: string, author: string, clock: Clock)
    ensures var item := Restatus(found, status, author, clock);
      && (forall f: Field :: f.Named? || f == Id || f == CreatedAt ==> Get(item, f) == Get(found, f))
      && Get(item, Status) == Some(status) && Get(item, PublishedAt) == StampedAt(status, Some(found), clock.stamp)
  {
  }

  /** A status change touches the status, its stamp, and who changed the item when; nothing else. */
  lemma RestatusTouches(found: Item, status: string, author: string, clock: Clock, f: Field)
    ensures var item := Restatus(found, status, author, clock);
      && Get(item, UpdatedAt) == Some(clock.now) && Get(item, UpdatedBy) == Some(author)
      && (f !in {Status, PublishedAt, UpdatedAt, UpdatedBy} ==> Get(item, f) == Get(found, f))
      && Get(item, PublishedAt) == if status == PUBLISHED && StatusOf(found) != PUBLISHED then Some(clock.stamp)
         else Get(found, PublishedAt)
  {
  }

  /** The named items whose status differs. */
  function Changing(content: Content, items: seq<Key>, status: string): set<Key>
    requires forall k :: k in items ==> k in content
  {
    set k | k in items && StatusOf(content[k]) != status
  }

  /** The puts leave each named item restated from how it was first found, and every other item alone. */
  lemma {:induction false} PutStatusesAre(found: Content, content: Content, items: seq<Key>, status: string,
          author: string, clock: Clock)
    requires forall k :: k in items ==> k in found
    ensures var after := PutStatuses(found, content, items, status, author, clock).0;
      && after.Keys == content.Keys + Changing(found, items, status)
      && (forall k :: k in after ==>
            after[k] == if k in Changing(found, items, status) then Restatus(found[k], status, author, clock)
              else content[k])
    decreases |items|
  {
    if items != [] {
      var k := items[0];
      var next := if StatusOf(found[k]) == status then content
        else content[k := Restatus(found[k], status, author, clock)];
      PutStatusesAre(found, next, items[1..], status, author, clock);
      assert forall j :: j in items <==> j == k || j in items[1..];
    }
  }

  lemma RestatusKeeps(reg: Registry, content: Content, after: Content, k: Key, status: string, author: string,
          clock: Clock)
    requires reg.Valid() && Sound(reg, content) && after.Keys == content.Keys && k in content
    requires after[k] == Restatus(content[k], status, author, clock)
    requires StatusOf(content[k]) != status
    ensures Kept(reg, k.entity, content[k], after[k]) && HasParent(reg, after, k.entity, after[k])
    ensures Id in after[k] && after[k][Id] == k.id && CreatedAt in after[k]
    ensures StatusOf(after[k]) == PUBLISHED && reg.byName[k.entity].fixedIds.None? ==> PublishedAt in after[k]
  {
    RestatusFacts(content[k], status, author, clock);
    assert HasParent(reg, content, k.entity, content[k]);
  }

  lemma SetStatusesKeep(reg: Registry, content: Content, status: string, items: seq<Key>, author: string, clock: Clock)
    requires reg.Valid() && Sound(reg, content)
    ensures var after := SetStatuses(reg, content, status, items, author, clock).0;
      Sound(reg, after) && AllKept(reg, content, after)
  {
    NoneUnknown(reg, content, items);
    if Unknown(reg, content, items).None? {
      PutStatusesAre(content, content, items, status, author, clock);
      RestatedKeep(reg, content, PutStatuses(content, content, items, status, author, clock).0,
        Changing(content, items, status), status, author, clock);
    }
  }

  lemma RestatedKeep(reg: Registry, content: Content, after: Content, changing: set<Key>, status: string,
          author: string, clock: Clock)
    requires reg.Valid() && Sound(reg, content) && after.Keys == content.Keys + changing && changing <= content.Keys
    requires forall k :: k in changing ==> StatusOf(content[k]) != status
    requires forall k :: k in after ==>
             after[k] == if k in changing then Restatus(content[k], status, author, clock) else content[k]
    ensures Sound(reg, after) && AllKept(reg, content, after)
  {
    assert after.Keys == content.Keys;
    forall k | k in after
      ensures Kept(reg, k.entity, content[k], after[k]) && HasParent(reg, after, k.entity, after[k])
      ensures Id in after[k] && after[k][Id] == k.id && CreatedAt in after[k]
      ensures StatusOf(after[k]) == PUBLISHED && reg.byName[k.entity].fixedIds.None? ==> PublishedAt in after[k]
    {
      if k in changing { RestatusKeeps(reg, content, after, k, status, author, clock); }
      else { assert HasParent(reg, content, k.entity, content[k]); }
    }
  }

  lemma ChangingGrows(found: Content, items: seq<Key>, status: string)
    requires items != [] && forall k :: k in items ==> k in found
    requires EachOnce(items)
    ensures |Changing(found, items, status)| == |Changing(found, items[1..], status)|
            + (if StatusOf(found[items[0]]) != status then 1 else 0)
  {
    var k, rest := items[0], items[1..];
    assert k !in rest;
    assert forall j :: j in items <==> j == k || j in rest;
    assert Changing(found, items, status) == Changing(found, rest, status)
      + (if StatusOf(found[k]) != status then {k} else {});
  }

  lemma {:induction false} PutStatusesCount(found: Content, content: Content, items: seq<Key>, status: string,
          author: string, clock: Clock)
    requires forall k :: k in items ==> k in found
    requires EachOnce(items)
    ensures PutStatuses(found, content, items, status, author, clock).1 == |Changing(found, items, status)|
    decreases |items|
  {
    if items != [] {
      var k, rest := items[0], items[1..];
      var next := if StatusOf(found[k]) == status then content
        else content[k := Restatus(found[k], status, author, clock)];
      PutStatusesCount(found, next, rest, status, author, clock);
      ChangingGrows(found, items, status);
    }
  }

  predicate FirstUnknownAt(reg: Registry, content: Content, items: seq<Key>, i: int) {
    && 0 <= i < |items| && !(reg.Has(items[i].entity) && items[i] in content)
    && forall j :: 0 <= j < i ==> reg.Has(items[j].entity) && items[j] in content
  }

  /** The first unknown type or id, if there is one, decides the error. */
  lemma {:induction false} FirstUnknown(reg: Registry, content: Content, items: seq<Key>) returns (i: nat)
    requires Unknown(reg, content, items).Some?
    ensures FirstUnknownAt(reg, content, items, i)
    ensures Unknown(reg, content, items) == Some(if reg.Has(items[i].entity) then NotFound else BadRequest)
  {
    if reg.Has(items[0].entity) && items[0] in content {
      var j := FirstUnknown(reg, content, items[1..]);
      i := j + 1;
    } else {
      i := 0;
    }
  }

  /**
   * Setting the status of a list either fails before writing anything, exactly
   * when some type or id is unknown, and says so of the first; or restates
   * exactly the named items whose status differs. If the list repeats nothing
   * it returns how many those are.
   */
  lemma SetStatusIsAllOrNothing(reg: Registry, content: Content, status: string, items: seq<Key>, author: string,
          clock: Clock)
    ensures var (after, r) := SetStatuses(reg, content, status, items, author, clock);
      && (r.Err? <==> exists k :: k in items && !(reg.Has(k.entity) && k in content))
      && (r.Err? ==> after == content)
      && (r.Err? ==> exists i :: FirstUnknownAt(reg, content, items, i)
                            && r.error == if reg.Has(items[i].entity) then NotFound else BadRequest)
      && (r.Ok? ==>
            && (forall k :: k in items ==> k in content)
            && r.value.Updated?
            && (EachOnce(items) ==> r.value.count == |Changing(content, items, status)|)
            && after.Keys == content.Keys
            && (forall k :: k in content ==>
                  after[k] == if k in Changing(content, items, status)
                    then Restatus(content[k], status, author, clock) else content[k]))
  {
    NoneUnknown(reg, content, items);
    if Unknown(reg, content, items).None? {
      PutStatusesAre(content, content, items, status, author, clock);
      if EachOnce(items) { PutStatusesCount(content, content, items, status, author, clock); }
    } else {
      var i := FirstUnknown(reg, content, items);
      assert FirstUnknownAt(reg, content, items, i) && items[i] in items;
    }
  }

  lemma {:induction false} NothingDiffers(found: Content, content: Content, items: seq<Key>, status: string,
          author: string, clock: Clock)
    requires forall k :: k in items ==> k in found && StatusOf(found[k]) == status
    ensures PutStatuses(found, content, items, status, author, clock) == (content, 0)
    decreases |items|
  {
    if items != [] { NothingDiffers(found, content, items[1..], status, author, clock); }
  }

  /** Repeating a status change that succeeded changes nothing and counts nothing. */
  lemma SetStatusTwice(reg: Registry, content: Content, status: string, items: seq<Key>, author: string,
          clock: Clock, author': string, clock': Clock)
    requires SetStatuses(reg, content, status, items, author, clock).1.Ok?
    ensures var after := SetStatuses(reg, content, status, items, author, clock).0;
      SetStatuses(reg, after, status, items, author', clock') == (after, Ok(Updated(0)))
  {
    var after := SetStatuses(reg, content, status, items, author, clock).0;
    SetStatusIsAllOrNothing(reg, content, status, items, author, clock);
    forall k | k in items ensures StatusOf(after[k]) == status {
      RestatusFacts(content[k], status, author, clock);
    }
    NoneUnknown(reg, content, items);
    NoneUnknown(reg, after, items);
    NothingDiffers(after, after, items, status, author', clock');
  }

  /**
   * A publication that succeeds makes public the item and everything its type's
   * hook names, and changes nothing else; it returns the item as it is now. The
   * hook is asked for linked items only if the caller asked for them, and for
   * children unless the caller declined them and asked for no linked items.
   */
  lemma PublicationIsPublic(reg: Registry, content: Content, op: Op)
    requires reg.Valid() && Keyed(reg, content) && op.Publish? && reg.Has(op.name)
    requires PublishItem(reg, content, op).1.Ok?
    ensures Key(op.name, op.id) in content && reg.byName[op.name].publish.Some?
    ensures var (after, r) := PublishItem(reg, content, op);
      var k, linked := Key(op.name, op.id), op.includeLinked == Some(true);
      var children := !(op.includeChildren == Some(false) && !linked);
      var items := [k] + reg.byName[op.name].publish.value(content[k],
        Ctx(content, op.author, op.clock.now, Some(content[k]), None),
        PublishOptions(includeChildren := children, includeLinked := linked));
      && after.Keys == content.Keys
      && (forall j :: j in items ==> j in after && StatusOf(after[j]) == PUBLISHED)
      && (forall j :: j in items && StatusOf(content[j]) != PUBLISHED ==>
            after[j] == Restatus(content[j], PUBLISHED, op.author, op.clock))
      && (forall j :: j in after && (j !in items || StatusOf(content[j]) == PUBLISHED) ==> after[j] == content[j])
      && k in after && r == Ok(Wrote(after[k]))
  {
    var items := PublishTargets(reg, content, op).value;
    NoneUnknown(reg, content, items);
    PutStatusesAre(content, content, items, PUBLISHED, op.author, op.clock);
    assert items[0] in items;
    forall k | k in items ensures StatusOf(PublishItem(reg, content, op).0[k]) == PUBLISHED {
      RestatusFacts(content[k], PUBLISHED, op.author, op.clock);
    }
  }

  // Deletions -----------------------------------------------------------------------------------

  /** Going up parent links only reaches shallower types. */
  lemma {:induction false} UnderIsDeeper(reg: Registry, content: Content, k: Key, root: Key)
    requires reg.Valid() && reg.Has(k.entity) && Under(reg, content, k, root)
    ensures reg.Has(root.entity) && (k == root || reg.depth[k.entity] > reg.depth[root.entity])
    decreases reg.depth[k.entity]
  {
    if k != root {
      UnderIsDeeper(reg, content, ParentKey(reg, k.entity, content[k]).value, root);
    }
  }

  /** What stays after a deletion still has its parents. */
  lemma SurvivorsKeepParents(reg: Registry, content: Content, root: Key, effects: seq<Effect>)
    requires reg.Valid() && Sound(reg, content) && EffectsSafe(reg, content, root, effects)
    ensures Sound(reg, content - Doomed(reg, content, root, effects))
    ensures AllKept(reg, content, content - Doomed(reg, content, root, effects))
  {
    var doomed := Doomed(reg, content, root, effects);
    forall k | k in content && k !in doomed
      ensures HasParent(reg, content - doomed, k.entity, content[k])
    {
      assert HasParent(reg, content, k.entity, content[k]);
      if reg.Def(k.entity).parent.Some? {
        var p := ParentKey(reg, k.entity, content[k]).value;
        assert p !in EffectRemovals(effects) by {
          assert !Childless(reg, p.entity);
        }
      }
    }
  }

  /** `b` is `a` with the app's own properties of some items rewritten. */
  ghost predicate Rewritten(reg: Registry, a: Content, b: Content) {
    a.Keys == b.Keys && forall k :: k in a ==> reg.Has(k.entity) && Agrees(reg, k.entity, a[k], b[k])
  }

  lemma {:induction false} PutsRewrite(reg: Registry, a: Content, b: Content, effects: seq<Effect>)
    requires Keyed(reg, a) && Rewritten(reg, a, b)
    requires forall e :: e in effects && e.PutEffect? ==>
      reg.Has(e.entity) && Id in e.item && Key(e.entity, e.item[Id]) in a
        && Agrees(reg, e.entity, a[Key(e.entity, e.item[Id])], e.item)
    ensures Rewritten(reg, a, ApplyPuts(b, effects))
    decreases |effects|
  {
    if effects != [] {
      var e := effects[0];
      assert e in effects;
      PutsRewrite(reg, a, if e.PutEffect? then b[Key(e.entity, Get(e.item, Id).GetOr("undefined")) := e.item] else b,
        effects[1..]);
    }
  }

  lemma RewriteKeepsSound(reg: Registry, a: Content, b: Content)
    requires reg.Valid() && Sound(reg, a) && Rewritten(reg, a, b)
    ensures Sound(reg, b) && AllKept(reg, a, b)
  {
    forall k | k in b
      ensures Id in b[k] && b[k][Id] == k.id && HasParent(reg, b, k.entity, b[k])
    {
      assert HasParent(reg, a, k.entity, a[k]);
    }
  }

  /** The effects a deletion would apply. */
  function EffectsOf(reg: Registry, content: Content, name: string, existing: Item, author: string,
          clock: Clock): seq<Effect>
    requires reg.Has(name) && ParentOf(reg, content, name, LinkOf(reg.Def(name), existing)).Ok?
  {
    reg.byName[name].onDelete(existing,
      Ctx(content, author, clock.now, Some(existing),
        ParentOf(reg, content, name, LinkOf(reg.Def(name), existing)).value))
  }

  lemma AfterDeletion(reg: Registry, content: Content, root: Key, effects: seq<Effect>)
    requires reg.Valid() && Sound(reg, content) && EffectsSafe(reg, content, root, effects)
    ensures var rest := content - Doomed(reg, content, root, effects);
      var after := ApplyPuts(rest, effects);
      Rewritten(reg, rest, after) && Sound(reg, after) && AllKept(reg, content, after)
  {
    var rest := content - Doomed(reg, content, root, effects);
    var after := ApplyPuts(rest, effects);
    SurvivorsKeepParents(reg, content, root, effects);
    forall e | e in effects && e.PutEffect?
      ensures reg.Has(e.entity) && Id in e.item && Key(e.entity, e.item[Id]) in rest
      ensures Agrees(reg, e.entity, rest[Key(e.entity, e.item[Id])], e.item)
    {
      assert EffectSafe(reg, content, Doomed(reg, content, root, effects), e);
    }
    PutsRewrite(reg, rest, rest, effects);
    RewriteKeepsSound(reg, rest, after);
  }

  lemma StoredEffectsSafe(reg: Registry, content: Content, name: string, id: string, author: string, clock: Clock)
    requires reg.Valid() && HooksSafe(reg) && Sound(reg, content) && reg.Has(name) && Key(name, id) in content
    requires ParentOf(reg, content, name, LinkOf(reg.Def(name), content[Key(name, id)])).Ok?
    ensures EffectsSafe(reg, content, Key(name, id),
            EffectsOf(reg, content, name, content[Key(name, id)], author, clock))
  {
    var existing := content[Key(name, id)];
    var ctx :=
      Ctx(content, author, clock.now, Some(existing),
        ParentOf(reg, content, name, LinkOf(reg.Def(name), existing)).value);
    assert EffectsSafe(reg, ctx.index, Key(name, existing[Id]), reg.byName[name].onDelete(existing, ctx));
  }

  /** The parent of a deleted item is never deleted with it. */
  lemma ParentSurvives(reg: Registry, content: Content, root: Key, effects: seq<Effect>)
    requires reg.Valid() && Sound(reg, content) && root in content && EffectsSafe(reg, content, root, effects)
    requires reg.Def(root.entity).parent.Some?
    ensures Exists(reg, content - Doomed(reg, content, root, effects), ParentKey(reg, root.entity, content[root]).value)
  {
    assert HasParent(reg, content, root.entity, content[root]);
    var p := ParentKey(reg, root.entity, content[root]).value;
    if p in content {
      if Under(reg, content, p, root) { UnderIsDeeper(reg, content, p, root); }
      assert p !in EffectRemovals(effects) by {
        assert !Childless(reg, p.entity);
      }
    }
  }

  /** A deletion that gets past its checks, spelt out. */
  lemma RemoveProceeds(reg: Registry, content: Content, name: string, ref: Ref, author: string, clock: Clock)
    requires reg.Valid() && Keyed(reg, content) && reg.Has(name)
    requires reg.byName[name].fixedIds.None? && Locate(reg, content, name, ref).Ok?
    ensures var k := Key(name, ref.id);
      && k in content && Locate(reg, content, name, ref).value == content[k]
      && (ParentOf(reg, content, name, LinkOf(reg.Def(name), content[k])).Ok? ==>
            var effects := EffectsOf(reg, content, name, content[k], author, clock);
            var after := ApplyPuts(content - Doomed(reg, content, k, effects), effects);
            && ReadyRemoval(reg, content, name, ref, author, clock) == Ok(Readied(content[k], effects))
            && RemoveItem(reg, content, name, ref, author, clock)
               == (after, ParentOutcome(reg, after, name, content[k])))
  {
  }

  /**
   * Deleting a stored item takes exactly the item, everything that hangs off it,
   * and what its effects name; what stays keeps its parents, ids, links and stamps.
   */
  lemma RemoveTakesTheSubtree(reg: Registry, content: Content, name: string, ref: Ref, author: string, clock: Clock)
    requires reg.Valid() && HooksSafe(reg) && Sound(reg, content) && reg.Has(name)
    requires reg.byName[name].fixedIds.None? && Locate(reg, content, name, ref).Ok?
    ensures var k := Key(name, ref.id);
      && k in content && ParentOf(reg, content, name, LinkOf(reg.Def(name), content[k])).Ok?
      && var after := RemoveItem(reg, content, name, ref, author, clock).0;
      && Rewritten(reg, content - Doomed(reg, content, k, EffectsOf(reg, content, name, content[k], author, clock)),
         after)
      && Sound(reg, after) && AllKept(reg, content, after)
  {
    var k := Key(name, ref.id);
    RemoveProceeds(reg, content, name, ref, author, clock);
    ParentResolves(reg, content, k);
    StoredEffectsSafe(reg, content, name, ref.id, author, clock);
    AfterDeletion(reg, content, k, EffectsOf(reg, content, name, content[k], author, clock));
  }

  lemma ParentLocated(reg: Registry, content: Content, k: Key, effects: seq<Effect>, after: Content)
    requires reg.Valid() && Sound(reg, content) && k in content && EffectsSafe(reg, content, k, effects)
    requires reg.Def(k.entity).parent.Some? && Rewritten(reg, content - Doomed(reg, content, k, effects), after)
    ensures LocateById(reg, after, reg.Def(k.entity).parent.value.name,
            LinkOf(reg.Def(k.entity), content[k]).GetOr("undefined")).Ok?
  {
    ParentSurvives(reg, content, k, effects);
    assert HasParent(reg, content, k.entity, content[k]);
  }

  /** Past its checks a deletion succeeds: the parent it returns is still there. */
  lemma RemoveReturnsParent(reg: Registry, content: Content, name: string, ref: Ref, author: string, clock: Clock)
    requires reg.Valid() && HooksSafe(reg) && Sound(reg, content) && reg.Has(name)
    requires reg.byName[name].fixedIds.None? && Locate(reg, content, name, ref).Ok?
    ensures var r := RemoveItem(reg, content, name, ref, author, clock).1;
      r.Ok? && r.value.Removed? && (r.value.parent.Some? <==> reg.Def(name).parent.Some?)
  {
    var k := Key(name, ref.id);
    RemoveProceeds(reg, content, name, ref, author, clock);
    RemoveTakesTheSubtree(reg, content, name, ref, author, clock);
    if reg.Def(name).parent.Some? {
      StoredEffectsSafe(reg, content, name, ref.id, author, clock);
      ParentLocated(reg, content, k, EffectsOf(reg, content, name, content[k], author, clock),
        RemoveItem(reg, content, name, ref, author, clock).0);
    }
  }

  lemma StoredDraftGoes(reg: Registry, content: Content, k: Key, author: string, clock: Clock)
    requires reg.Valid() && HooksSafe(reg) && Sound(reg, content) && k in content && reg.byName[k.entity].fixedIds.None?
    ensures var (after, r) := RemoveItem(reg, content, k.entity, reg.Def(k.entity).RefOf(content[k]), author, clock);
      r.Ok? && k !in after
  {
    var ref := reg.Def(k.entity).RefOf(content[k]);
    LocatesIff(reg, content, k.entity, ref);
    assert HasParent(reg, content, k.entity, content[k]);
    RemoveReturnsParent(reg, content, k.entity, ref, author, clock);
    RemoveTakesTheSubtree(reg, content, k.entity, ref, author, clock);
  }

  /** Only drafts are deleted this way: anything else is refused and stays. */
  lemma RemovesOnlyDrafts(reg: Registry, content: Content, op: Op)
    requires reg.Valid() && HooksSafe(reg) && Sound(reg, content) && op.RemoveDraft? && reg.Has(op.name)
    ensures var (after, r) := RemoveDraftItem(reg, content, op);
      var k := Key(op.name, op.id);
      && (r.Ok? <==> reg.byName[op.name].fixedIds.None? && k in content && StatusOf(content[k]) == DRAFT)
      && (if r.Ok? then k !in after else after == content)
  {
    var k := Key(op.name, op.id);
    if k in content && reg.byName[op.name].fixedIds.None? { StoredDraftGoes(reg, content, k, op.author, op.clock); }
  }

  lemma RemoveKeeps(reg: Registry, content: Content, name: string, ref: Ref, author: string, clock: Clock)
    requires reg.Valid() && HooksSafe(reg) && Sound(reg, content) && reg.Has(name)
    ensures var after := RemoveItem(reg, content, name, ref, author, clock).0;
      Sound(reg, after) && AllKept(reg, content, after)
  {
    if reg.byName[name].fixedIds.None? && Locate(reg, content, name, ref).Ok? {
      RemoveTakesTheSubtree(reg, content, name, ref, author, clock);
    }
  }

  // Whole runs -----------------------------------------------------------------------------------

  /** The random id a creation falls back on is new. */
  predicate Fresh(content: Content, op: Op) {
    op.Create? ==> Key(op.name, op.freshId) !in content
  }

  lemma StepKeeps(reg: Registry, content: Content, op: Op)
    requires reg.Valid() && HooksSafe(reg) && Sound(reg, content) && Fresh(content, op)
    ensures var after := Step(reg, content, op).0; Sound(reg, after) && AllKept(reg, content, after)
  {
    if op.SetStatus? {
      SetStatusesKeep(reg, content, op.status, op.items, op.author, op.clock);
    } else if reg.Has(op.name) {
      match op {
        case Create(_, _, _, _, _, _) => CreateKeeps(reg, content, op);
        case Update(_, _, _, _, _) => UpdateKeeps(reg, content, op);
        case Remove(_, _, _, _) => RemoveKeeps(reg, content, op.name, op.ref, op.author, op.clock);
        case RemoveDraft(_, _, _, _) => RemoveDraftKeeps(reg, content, op);
        case Publish(_, _, _, _, _, _) => PublishKeeps(reg, content, op);
      }
    }
  }

  lemma RemoveDraftKeeps(reg: Registry, content: Content, op: Op)
    requires op.RemoveDraft? && reg.Valid() && HooksSafe(reg) && Sound(reg, content) && reg.Has(op.name)
    ensures var after := RemoveDraftItem(reg, content, op).0; Sound(reg, after) && AllKept(reg, content, after)
  {
    if LocateById(reg, content, op.name, op.id).Ok? {
      var existing := LocateById(reg, content, op.name, op.id).value;
      RemoveKeeps(reg, content, op.name, reg.Def(op.name).RefOf(existing), op.author, op.clock);
    }
  }

  lemma PublishKeeps(reg: Registry, content: Content, op: Op)
    requires op.Publish? && reg.Valid() && Sound(reg, content) && reg.Has(op.name)
    ensures var after := PublishItem(reg, content, op).0; Sound(reg, after) && AllKept(reg, content, after)
  {
    if PublishTargets(reg, content, op).Ok? {
      SetStatusesKeep(reg, content, PUBLISHED, PublishTargets(reg, content, op).value, op.author, op.clock);
    }
  }

  /** The contents a run goes through, from `content` on. */
  ghost predicate IsRun(reg: Registry, contents: seq<Content>, ops: seq<Op>)
    requires reg.Valid()
  {
    && |contents| == |ops| + 1
    && (forall i :: 0 <= i < |ops| ==>
       Fresh(contents[i], ops[i]) && Keyed(reg, contents[i]) && contents[i + 1] == Step(reg, contents[i], ops[i]).0)
  }

  /**
   * After every write of every run from an empty store: no orphans, every
   * published item stamped, and from each state to the next no surviving item
   * changes its id, its parent or its creation time, nor its publication time
   * except by becoming published.
   */
  lemma {:induction false} RunsStaySound(reg: Registry, contents: seq<Content>, ops: seq<Op>, n: nat)
    requires reg.Valid() && HooksSafe(reg) && IsRun(reg, contents, ops) && contents[0] == map[]
    requires n < |contents|
    ensures Sound(reg, contents[n])
    ensures forall i :: 0 <= i < n ==> Keyed(reg, contents[i]) && AllKept(reg, contents[i], contents[i + 1])
  {
    if n != 0 {
      RunsStaySound(reg, contents, ops, n - 1);
      StepKeeps(reg, contents[n - 1], ops[n - 1]);
    }
  }

  /**
   * Why stamps are promised only for types without fixed ids: the stub of an
   * unsaved fixed id reads as published, so its first save records no publication
   * time, and the saved item lacks one while published exactly when the save's
   * status is `published`.
   */
  lemma FirstSaveOfFixedId(reg: Registry, content: Content, op: Op)
    requires reg.Valid() && Sound(reg, content) && op.Update? && reg.Has(op.name)
    requires Key(op.name, op.ref.id) !in content && IsFixed(reg, Key(op.name, op.ref.id))
    requires reg.Def(op.name).parent.None? && UpdateItem(reg, content, op).1.Ok?
    ensures var item := UpdateItem(reg, content, op).1.value.item;
      && PublishedAt !in item
      && (StatusOf(item) == PUBLISHED <==> Get(op.input, Status).GetOr(PUBLISHED) == PUBLISHED)
  {
    var spec := reg.byName[op.name];
    var ctx := Ctx(content, op.author, op.clock.now, Some(map[Id := op.ref.id]), None);
    AssembleFacts(None, op.ref.id, spec.fields(op.input, ctx).value, NewStatus(spec, op.input, ctx), ctx,
      op.clock.stamp);
  }

  /**
   * An item that was not there before a write is a new one, or the first save of a
   * fixed id; the latter has no publication time.
   */
  lemma FirstSeenFixedId(reg: Registry, content: Content, op: Op, k: Key)
    requires reg.Valid() && HooksSafe(reg) && Sound(reg, content) && Fresh(content, op)
    requires IsFixed(reg, k) && k !in content && k in Step(reg, content, op).0
    ensures PublishedAt !in Step(reg, content, op).0[k]
  {
    if op.SetStatus? {
      NoKeyIsNew(reg, content, PUBLISHED, op.items, op.author, op.clock);
      NoKeyIsNew(reg, content, op.status, op.items, op.author, op.clock);
    } else if reg.Has(op.name) {
      if op.Update? {
        FirstSaveOfStub(reg, content, op, k);
      } else if op.Publish? {
        if PublishTargets(reg, content, op).Ok? {
          NoKeyIsNew(reg, content, PUBLISHED, PublishTargets(reg, content, op).value, op.author, op.clock);
        }
      } else if op.Remove? {
        RemovalAddsNothing(reg, content, op.name, op.ref, op.author, op.clock);
      } else if op.RemoveDraft? && LocateById(reg, content, op.name, op.id).Ok? {
        RemovalAddsNothing(reg, content, op.name,
          reg.Def(op.name).RefOf(LocateById(reg, content, op.name, op.id).value), op.author, op.clock);
      }
    }
  }

  lemma NoKeyIsNew(reg: Registry, content: Content, status: string, items: seq<Key>, author: string, clock: Clock)
    ensures SetStatuses(reg, content, status, items, author, clock).0.Keys == content.Keys
  {
    NoneUnknown(reg, content, items);
    if Unknown(reg, content, items).None? { PutStatusesAre(content, content, items, status, author, clock); }
  }

  lemma RemovalAddsNothing(reg: Registry, content: Content, name: string, ref: Ref, author: string, clock: Clock)
    requires reg.Valid() && HooksSafe(reg) && Sound(reg, content) && reg.Has(name)
    ensures RemoveItem(reg, content, name, ref, author, clock).0.Keys <= content.Keys
  {
    if reg.byName[name].fixedIds.None? && Locate(reg, content, name, ref).Ok? {
      RemoveTakesTheSubtree(reg, content, name, ref, author, clock);
    }
  }

  lemma FirstSaveOfStub(reg: Registry, content: Content, op: Op, k: Key)
    requires reg.Valid() && Sound(reg, content) && op.Update? && reg.Has(op.name)
    requires k !in content && k in UpdateItem(reg, content, op).0
    ensures PublishedAt !in UpdateItem(reg, content, op).0[k]
  {
    var spec, existing := reg.byName[op.name], Locate(reg, content, op.name, op.ref).value;
    var ctx :=
      Ctx(content, op.author, op.clock.now, Some(existing),
        ParentOf(reg, content, op.name, LinkOf(spec.def, existing)).value);
    LocatesIff(reg, content, op.name, op.ref);
    UpdatedFits(reg, content, Key(op.name, op.ref.id), spec.fields(op.input, ctx).value,
      NewStatus(spec, op.input, ctx), ctx, op.clock.stamp);
    UpdatedStatus(reg, content, op);
  }

  /** From state `i` to state `n` the item was there all along, and at `i` it was not published. */
  ghost predicate UnpublishedAt(contents: seq<Content>, k: Key, i: nat, n: nat) {
    i <= n < |contents| && (forall j :: i <= j <= n ==> k in contents[j]) && StatusOf(contents[i][k]) != PUBLISHED
  }

  ghost predicate EverUnpublished(contents: seq<Content>, k: Key, n: nat) {
    exists i: nat :: UnpublishedAt(contents, k, i, n)
  }

  lemma UnpublishedSoFar(contents: seq<Content>, k: Key, n: nat)
    requires 0 < n < |contents| && k in contents[n] && StatusOf(contents[n][k]) == PUBLISHED
    ensures EverUnpublished(contents, k, n) <==> k in contents[n - 1] && EverUnpublished(contents, k, n - 1)
  {
    if EverUnpublished(contents, k, n) {
      var i: nat :| UnpublishedAt(contents, k, i, n);
      assert UnpublishedAt(contents, k, i, n - 1);
    }
    if k in contents[n - 1] && EverUnpublished(contents, k, n - 1) {
      var i: nat :| UnpublishedAt(contents, k, i, n - 1);
      assert UnpublishedAt(contents, k, i, n);
    }
  }

  /**
   * In every run from an empty store, a published item of a fixed id has a
   * publication time exactly if it was unpublished in some state since it was
   * first saved: only becoming published records one.
   */
  lemma {:induction false} FixedIdStampedIff(reg: Registry, contents: seq<Content>, ops: seq<Op>, k: Key, n: nat)
    requires reg.Valid() && HooksSafe(reg) && IsRun(reg, contents, ops) && contents[0] == map[]
    requires n < |contents| && IsFixed(reg, k) && k in contents[n] && StatusOf(contents[n][k]) == PUBLISHED
    ensures PublishedAt in contents[n][k] <==> EverUnpublished(contents, k, n)
  {
    RunsStaySound(reg, contents, ops, n - 1);
    OneMoreStamp(reg, contents[n - 1], ops[n - 1], k);
    UnpublishedSoFar(contents, k, n);
    if k in contents[n - 1] {
      if StatusOf(contents[n - 1][k]) == PUBLISHED {
        FixedIdStampedIff(reg, contents, ops, k, n - 1);
      } else {
        assert UnpublishedAt(contents, k, n - 1, n - 1);
      }
    }
  }

  /** What one write does to the publication time of a fixed id's item that it leaves published. */
  lemma OneMoreStamp(reg: Registry, before: Content, op: Op, k: Key)
    requires reg.Valid() && HooksSafe(reg) && Sound(reg, before) && Fresh(before, op) && IsFixed(reg, k)
    requires var after := Step(reg, before, op).0; k in after && StatusOf(after[k]) == PUBLISHED
    ensures var after := Step(reg, before, op).0;
      PublishedAt in after[k] <==> k in before && (StatusOf(before[k]) == PUBLISHED ==> PublishedAt in before[k])
  {
    if k in before {
      StepKeeps(reg, before, op);
      assert Kept(reg, k.entity, before[k], Step(reg, before, op).0[k]);
    } else {
      FirstSeenFixedId(reg, before, op, k);
    }
  }
}
