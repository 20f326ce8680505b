/** What each write leaves behind, spelt out from the stored content, the hooks and the arguments. */
module CmsOutcomes {
  import opened Prelude
  import opened CmsModel
  import opened CmsWrites
  import opened CmsIntegrity
  import opened CmsAddresses
  import opened CmsCalls

  /** What reads as the item: the stored one, or the stub of an unsaved fixed id. */
  function ReadAs(reg: Registry, content: Content, k: Key): Option<Item> {
    if k in content then Some(content[k]) else if IsFixed(reg, k) then Some(map[Id := k.id]) else None
  }

  /** The parent an id names, for a type that has parents. */
  function NamedParent(reg: Registry, content: Content, name: string, parentId: Option<string>): Option<Item>
    requires reg.Has(name)
  {
    var parent := reg.Def(name).parent;
    if parent.None? || parentId.GetOr("") == "" then None
    else ReadAs(reg, content, Key(parent.value.name, parentId.value))
  }

  /** The item has what the hook gave, and keeps what the hook was silent about. */
  ghost predicate HasFields(item: Item, existing: Item, fields: Patch, link: Option<Field>) {
    forall name: string :: Some(Named(name)) != link ==>
      Get(item, Named(name)) == if Named(name) in fields then fields[Named(name)] else Get(existing, Named(name))
  }

  function LinkField(def: EntityDef): Option<Field> {
    if def.parent.Some? then Some(def.parent.value.field) else None
  }

  // Creations and updates ---------------------------------------------------------------------------

  /** The context of a creation: the content, who and when, and the parent named. */
  function CreateCtx(reg: Registry, content: Content, op: Op): Ctx
    requires op.Create? && reg.Has(op.name)
  {
    Ctx(content, op.author, op.clock.now, None, NamedParent(reg, content, op.name, op.parentId))
  }

  /**
   * A creation succeeds exactly for a type whose ids are not fixed, under a parent
   * that exists if the type has one, when the spec accepts the input. It is
   * refused for these reasons in this order, and changes nothing then.
   */
  lemma CreatesIff(reg: Registry, content: Content, op: Op)
    requires reg.Valid() && Keyed(reg, content) && op.Create? && reg.Has(op.name)
    ensures var (after, r) := CreateItem(reg, content, op);
      var spec, ctx := reg.byName[op.name], CreateCtx(reg, content, op);
      && (r.Ok? <==>
            spec.fixedIds.None? && (spec.def.parent.Some? ==> ctx.parent.Some?) && spec.fields(op.input, ctx).Ok?)
      && (r.Err? ==> after == content)
      && (spec.fixedIds.Some? ==> r == Err(BadRequest))
      && (spec.fixedIds.None? && spec.def.parent.Some? && ctx.parent.None? ==>
            r == Err(if op.parentId.GetOr("") == "" then BadRequest else NotFound))
      && (spec.fixedIds.None? && (spec.def.parent.Some? ==> ctx.parent.Some?) && spec.fields(op.input, ctx).Err? ==>
            r == Err(spec.fields(op.input, ctx).error))
  {
    ParentIs(reg, content, op.name, op.parentId);
  }

  lemma ParentIs(reg: Registry, content: Content, name: string, parentId: Option<string>)
    requires reg.Has(name)
    ensures var r, parent := ParentOf(reg, content, name, parentId), NamedParent(reg, content, name, parentId);
      && (r.Ok? <==> reg.Def(name).parent.Some? ==> parent.Some?)
      && (r.Ok? ==> r.value == parent)
      && (r.Err? ==> r.error == if parentId.GetOr("") == "" then BadRequest else NotFound)
  {
  }

  /**
   * A creation stores one new item: under the id the type makes, else the random
   * one; with the fields its spec returned and no others, the parent's id as its
   * link, and who created it when.
   */
  lemma CreatedIs(reg: Registry, content: Content, op: Op)
    requires reg.Valid() && Keyed(reg, content) && op.Create? && reg.Has(op.name) && CreateItem(reg, content, op).1.Ok?
    ensures var (after, r) := CreateItem(reg, content, op);
      var spec, ctx := reg.byName[op.name], CreateCtx(reg, content, op);
      var id := if spec.makeId.Some? then spec.makeId.value(op.input, ctx) else op.freshId;
      && spec.fields(op.input, ctx).Ok?
      && r.value.Wrote? && after == content[Key(op.name, id) := r.value.item]
      && var item := r.value.item;
      && Get(item, Id) == Some(id)
      && Get(item, CreatedAt) == Some(op.clock.now) && Get(item, UpdatedAt) == Some(op.clock.now)
      && Get(item, UpdatedBy) == Some(op.author)
      && (spec.def.parent.Some? ==> Get(item, spec.def.parent.value.field) == op.parentId)
      && HasFields(item, map[], spec.fields(op.input, ctx).value, LinkField(spec.def))
  {
    var spec, ctx := reg.byName[op.name], CreateCtx(reg, content, op);
    CreatesIff(reg, content, op);
    ParentIs(reg, content, op.name, op.parentId);
    ParentFound(reg, content, op.name, op.parentId);
    var id := NewId(spec, op.input, ctx, op.freshId);
    AssembledIs(spec.def.parent, id, spec.fields(op.input, ctx).value, NewStatus(spec, op.input, ctx), ctx,
      op.clock.stamp);
  }

  lemma AssembledIs(p: Option<ParentDef>, id: string, fields: Patch, status: string, ctx: Ctx, stamp: string)
    requires p.Some? ==> p.value.field.Named? && ctx.parent.Some? && Id in ctx.parent.value
    ensures var item := Assemble(p, id, fields, status, ctx, stamp);
      && Get(item, Id) == Some(id) && Get(item, UpdatedAt) == Some(ctx.now) && Get(item, UpdatedBy) == Some(ctx.author)
      && Get(item, CreatedAt)
         == Some(if ctx.existing.Some? then Get(ctx.existing.value, CreatedAt).GetOr(ctx.now) else ctx.now)
      && (p.Some? ==> Get(item, p.value.field) == Some(ctx.parent.value[Id]))
      && HasFields(item, ctx.existing.GetOr(map[]), fields, if p.Some? then Some(p.value.field) else None)
  {
    AssembleFacts(p, id, fields, status, ctx, stamp);
    forall name: string | p.Some? ==> p.value.field != Named(name) {
      AssembleKeepsFields(p, id, fields, status, ctx, stamp, name);
    }
    AssembleKeepsWriter(p, id, fields, status, ctx, stamp);
  }

  lemma AssembleKeepsWriter(p: Option<ParentDef>, id: string, fields: Patch, status: string, ctx: Ctx, stamp: string)
    ensures var item := Assemble(p, id, fields, status, ctx, stamp);
      Get(item, UpdatedAt) == Some(ctx.now) && Get(item, UpdatedBy) == Some(ctx.author)
  {
  }

  /** What an update reads: the item, and the parent its own link names. */
  function UpdateReads(reg: Registry, content: Content, op: Op): Option<Ctx>
    requires op.Update? && reg.Has(op.name)
  {
    match ReadAs(reg, content, Key(op.name, op.ref.id))
    case None => None
    case Some(existing) =>
      Some(Ctx(content, op.author, op.clock.now, Some(existing),
        NamedParent(reg, content, op.name, LinkOf(reg.Def(op.name), existing))))
  }

  /**
   * An update stores the item under its own key: with its own id, link and
   * creation time; the fields its spec returned, and for those the spec was
   * silent about what was stored; and who changed it when. It succeeds exactly
   * when item and parent are there, a scoped reference names that parent, and the
   * spec accepts the input; one that fails changes nothing.
   */
  lemma UpdatedIs(reg: Registry, content: Content, op: Op)
    requires reg.Valid() && Sound(reg, content) && op.Update? && reg.Has(op.name)
    ensures var (after, r) := UpdateItem(reg, content, op);
      var spec, seen := reg.byName[op.name], UpdateReads(reg, content, op);
      && (r.Ok? <==>
            && seen.Some? && spec.fields(op.input, seen.value).Ok?
            && (spec.def.parent.Some? ==> seen.value.parent.Some?)
            && (Scoped(spec.def, op.ref) ==> LinkOf(spec.def, seen.value.existing.value) == op.ref.parentId))
      && (r.Err? ==> after == content)
      && (r.Ok? ==>
            && r.value.Wrote? && after == content[Key(op.name, op.ref.id) := r.value.item]
            && seen.Some? && spec.fields(op.input, seen.value).Ok?
            && var item, existing := r.value.item, seen.value.existing.value;
            && Get(item, Id) == Some(op.ref.id)
            && Get(item, CreatedAt) == Some(Get(existing, CreatedAt).GetOr(op.clock.now))
            && Get(item, UpdatedAt) == Some(op.clock.now) && Get(item, UpdatedBy) == Some(op.author)
            && (spec.def.parent.Some? ==>
                 Get(item, spec.def.parent.value.field) == Get(existing, spec.def.parent.value.field))
            && HasFields(item, existing, spec.fields(op.input, seen.value).value, LinkField(spec.def)))
  {
    var spec, r := reg.byName[op.name], UpdateItem(reg, content, op).1;
    LocatesIff(reg, content, op.name, op.ref);
    if UpdateReads(reg, content, op).Some? {
      ParentIs(reg, content, op.name, LinkOf(spec.def, UpdateReads(reg, content, op).value.existing.value));
    }
    if r.Ok? {
      var link := LinkOf(spec.def, Locate(reg, content, op.name, op.ref).value);
      ParentFound(reg, content, op.name, link);
      var ctx := UpdateReads(reg, content, op).value;
      AssembledIs(spec.def.parent, op.ref.id, spec.fields(op.input, ctx).value, NewStatus(spec, op.input, ctx), ctx,
        op.clock.stamp);
    }
  }

  // Publications -------------------------------------------------------------------------------------

  /** What a publication asks its type's hook for, as the caller's options have it. */
  function Asked(op: Op): PublishOptions
    requires op.Publish?
  {
    PublishOptions(!(op.includeChildren == Some(false) && op.includeLinked != Some(true)),
      op.includeLinked == Some(true))
  }

  /** What the hook names besides the item. */
  function Cascaded(reg: Registry, content: Content, op: Op): seq<Key>
    requires op.Publish? && reg.Has(op.name) && Key(op.name, op.id) in content && reg.byName[op.name].publish.Some?
  {
    var existing := content[Key(op.name, op.id)];
    reg.byName[op.name].publish.value(existing, Ctx(content, op.author, op.clock.now, Some(existing), None), Asked(op))
  }

  /**
   * A publication succeeds exactly for a stored item of a type that publishes
   * and whose hook names stored items only; one that fails changes nothing.
   */
  lemma PublishesIff(reg: Registry, content: Content, op: Op)
    requires reg.Valid() && Keyed(reg, content) && op.Publish? && reg.Has(op.name)
    ensures var (after, r) := PublishItem(reg, content, op);
      var k, publish := Key(op.name, op.id), reg.byName[op.name].publish;
      && (r.Ok? <==>
            && k in content && publish.Some?
            && forall j :: j in Cascaded(reg, content, op) ==> reg.Has(j.entity) && j in content)
      && (r.Err? ==> after == content)
      && (k !in content && !IsFixed(reg, k) ==> r == Err(NotFound))
      && ((k in content || IsFixed(reg, k)) && publish.None? ==> r == Err(BadRequest))
  {
    var k, publish := Key(op.name, op.id), reg.byName[op.name].publish;
    if PublishTargets(reg, content, op).Ok? {
      var items := PublishTargets(reg, content, op).value;
      NoneUnknown(reg, content, items);
      assert items[0] == k && forall j :: j in items <==> j == k || j in items[1..];
      if Unknown(reg, content, items).None? {
        PutStatusesAre(content, content, items, PUBLISHED, op.author, op.clock);
      }
    }
  }

  // Deletions ---------------------------------------------------------------------------------------------

  /** The effects of deleting a stored item, from its type's hook. */
  function EffectsFor(reg: Registry, content: Content, k: Key, author: string, now: string): seq<Effect>
    requires k in content && reg.Has(k.entity)
  {
    var existing := content[k];
    reg.byName[k.entity].onDelete(existing,
      Ctx(content, author, now, Some(existing),
        NamedParent(reg, content, k.entity, LinkOf(reg.Def(k.entity), existing))))
  }

  predicate Removes(effects: seq<Effect>, k: Key) {
    exists e :: e in effects && e.RemoveEffect? && Key(e.entity, e.ref.id) == k
  }

  predicate PutsAt(effects: seq<Effect>, i: nat, k: Key)
    requires i < |effects|
  {
    effects[i].PutEffect? && effects[i].entity == k.entity && Get(effects[i].item, Id) == Some(k.id)
  }

  predicate PutsLastAt(effects: seq<Effect>, i: nat, k: Key)
    requires i < |effects|
  {
    PutsAt(effects, i, k) && forall m :: i < m < |effects| ==> !PutsAt(effects, m, k)
  }

  /**
   * `after` is the content without `k`, without all that hangs off it and without
   * what the effects remove; of the rest, each item is as its last put among the
   * effects has it, and as it was if there is none.
   */
  ghost predicate Deletes(reg: Registry, content: Content, after: Content, k: Key, effects: seq<Effect>)
    requires reg.Valid() && Keyed(reg, content)
  {
    && (forall j :: j in after <==> j in content && !Under(reg, content, j, k) && !Removes(effects, j))
    && (forall j :: j in after && (forall i :: 0 <= i < |effects| ==> !PutsAt(effects, i, j)) ==>
       after[j] == content[j])
    && (forall j, i :: j in after && 0 <= i < |effects| && PutsLastAt(effects, i, j) ==> after[j] == effects[i].item)
  }

  lemma {:induction false} PutsAreLast(content: Content, effects: seq<Effect>, j: Key)
    requires j in content && forall e :: e in effects && e.PutEffect? ==> Id in e.item
    ensures j in ApplyPuts(content, effects)
    ensures (forall i :: 0 <= i < |effects| ==> !PutsAt(effects, i, j)) ==>
              ApplyPuts(content, effects)[j] == content[j]
    ensures forall i :: 0 <= i < |effects| && PutsLastAt(effects, i, j) ==>
              ApplyPuts(content, effects)[j] == effects[i].item
    decreases |effects|
  {
    if effects != [] {
      var e, rest := effects[0], effects[1..];
      assert e in effects;
      var next := if e.PutEffect? then content[Key(e.entity, Get(e.item, Id).GetOr("undefined")) := e.item]
        else content;
      PutsAreLast(next, rest, j);
      assert forall i: nat :: i < |rest| ==> PutsAt(rest, i, j) == PutsAt(effects, i + 1, j);
      assert next[j] == if PutsAt(effects, 0, j) then e.item else content[j];
      forall i | 0 <= i < |effects| && PutsLastAt(effects, i, j)
        ensures ApplyPuts(content, effects)[j] == effects[i].item
      {
        if i > 0 { assert PutsLastAt(rest, i - 1, j); }
      }
    }
  }

  /**
   * A deletion past its checks does exactly this, with the effects its type's hook
   * gives for the stored item; and it returns the item's parent as stored then.
   */
  lemma DeletionIs(reg: Registry, content: Content, name: string, ref: Ref, author: string, clock: Clock)
    requires reg.Valid() && HooksSafe(reg) && Sound(reg, content) && reg.Has(name)
    requires reg.byName[name].fixedIds.None? && Locate(reg, content, name, ref).Ok?
    ensures Key(name, ref.id) in content
    ensures var (after, r) := RemoveItem(reg, content, name, ref, author, clock);
      var k, parent := Key(name, ref.id), reg.Def(name).parent;
      && Deletes(reg, content, after, k, EffectsFor(reg, content, k, author, clock.now))
      && (parent.None? ==> r == Ok(Removed(None)))
      && (parent.Some? ==>
            && parent.value.field in content[k]
            && var p := ReadAs(reg, after, Key(parent.value.name, content[k][parent.value.field]));
               p.Some? && r == Ok(Removed(p)))
  {
    var k := Key(name, ref.id);
    RemoveProceeds(reg, content, name, ref, author, clock);
    ParentResolves(reg, content, k);
    ParentIs(reg, content, name, LinkOf(reg.Def(name), content[k]));
    StoredEffectsSafe(reg, content, name, ref.id, author, clock);
    DeletedIs(reg, content, k, EffectsFor(reg, content, k, author, clock.now));
    ParentReturned(reg, content, name, ref, author, clock);
  }

  lemma DeletedIs(reg: Registry, content: Content, k: Key, effects: seq<Effect>)
    requires reg.Valid() && Sound(reg, content) && EffectsSafe(reg, content, k, effects)
    ensures Deletes(reg, content, ApplyPuts(content - Doomed(reg, content, k, effects), effects), k, effects)
  {
    var rest := content - Doomed(reg, content, k, effects);
    AfterDeletion(reg, content, k, effects);
    forall e | e in effects && e.PutEffect? ensures Id in e.item {
      assert EffectSafe(reg, content, Doomed(reg, content, k, effects), e);
    }
    forall j ensures j in rest <==> j in content && !Under(reg, content, j, k) && !Removes(effects, j) {
      if j in content && Removes(effects, j) { assert j in EffectRemovals(effects); }
    }
    forall j | j in rest { PutsAreLast(rest, effects, j); }
  }

  lemma ParentReturned(reg: Registry, content: Content, name: string, ref: Ref, author: string, clock: Clock)
    requires reg.Valid() && HooksSafe(reg) && Sound(reg, content) && reg.Has(name)
    requires reg.byName[name].fixedIds.None? && Locate(reg, content, name, ref).Ok? && Key(name, ref.id) in content
    ensures var (after, r) := RemoveItem(reg, content, name, ref, author, clock);
      var k, parent := Key(name, ref.id), reg.Def(name).parent;
      && (parent.None? ==> r == Ok(Removed(None)))
      && (parent.Some? ==>
            && parent.value.field in content[k]
            && var p := ReadAs(reg, after, Key(parent.value.name, content[k][parent.value.field]));
               p.Some? && r == Ok(Removed(p)))
  {
    var k := Key(name, ref.id);
    RemoveProceeds(reg, content, name, ref, author, clock);
    ParentResolves(reg, content, k);
    RemoveReturnsParent(reg, content, name, ref, author, clock);
    assert HasParent(reg, content, name, content[k]);
    OutcomeIs(reg, RemoveItem(reg, content, name, ref, author, clock).0, name, content[k]);
  }

  lemma OutcomeIs(reg: Registry, after: Content, name: string, existing: Item)
    requires reg.Has(name) && var p := reg.Def(name).parent; p.Some? ==> p.value.field in existing
    ensures var parent, r := reg.Def(name).parent, ParentOutcome(reg, after, name, existing);
      if parent.None? then r == Ok(Removed(None))
      else
        var p := ReadAs(reg, after, Key(parent.value.name, existing[parent.value.field]));
        r == if p.Some? then Ok(Removed(p)) else Err(NotFound)
  {
  }

  /**
   * Deleting by reference succeeds exactly for a stored item of a type whose ids
   * are not fixed, named by id alone or under its own parent; a refusal changes
   * nothing.
   */
  lemma RemovesIff(reg: Registry, content: Content, name: string, ref: Ref, author: string, clock: Clock)
    requires reg.Valid() && HooksSafe(reg) && Sound(reg, content) && reg.Has(name)
    ensures var (after, r) := RemoveItem(reg, content, name, ref, author, clock);
      var k, fixed := Key(name, ref.id), reg.byName[name].fixedIds.Some?;
      && (r.Ok? <==>
            !fixed && k in content
              && (Scoped(reg.Def(name), ref) ==> LinkOf(reg.Def(name), content[k]) == ref.parentId))
      && (r.Err? ==> after == content && r.error == if fixed then BadRequest else NotFound)
  {
    LocatesIff(reg, content, name, ref);
    if reg.byName[name].fixedIds.None? && Locate(reg, content, name, ref).Ok? {
      RemoveReturnsParent(reg, content, name, ref, author, clock);
    } else if reg.byName[name].fixedIds.None? {
      NotLocated(reg, content, name, ref);
    }
  }

  /** A reference that finds nothing finds nothing for one reason. */
  lemma NotLocated(reg: Registry, content: Content, name: string, ref: Ref)
    requires reg.Has(name) && Locate(reg, content, name, ref).Err?
    ensures Locate(reg, content, name, ref) == Err(NotFound)
  {
  }

  /** Deleting a draft is deleting it, without its parent in return; anything but a stored draft is refused. */
  lemma DraftDeletionIs(reg: Registry, content: Content, op: Op)
    requires reg.Valid() && HooksSafe(reg) && Sound(reg, content) && op.RemoveDraft? && reg.Has(op.name)
    ensures var (after, r) := RemoveDraftItem(reg, content, op);
      var k := Key(op.name, op.id);
      && (r.Ok? ==>
            && r == Ok(Removed(None)) && k in content
            && Deletes(reg, content, after, k, EffectsFor(reg, content, k, op.author, op.clock.now)))
      && (r.Err? ==> r.error == if ReadAs(reg, content, k).None? then NotFound else BadRequest)
  {
    RemovesOnlyDrafts(reg, content, op);
    var k := Key(op.name, op.id);
    if k in content && reg.byName[op.name].fixedIds.None? && StatusOf(content[k]) == DRAFT {
      var ref := reg.Def(op.name).RefOf(content[k]);
      LocatesIff(reg, content, op.name, ref);
      DeletionIs(reg, content, op.name, ref, op.author, op.clock);
    }
  }

  // Status changes ------------------------------------------------------------------------------------------

  /** The number a status change returns is the number of items it stores, whatever the list repeats. */
  lemma {:induction false} CountsItsPuts(found: Content, content: Content, items: seq<Key>, status: string,
          author: string, clock: Clock)
    requires forall k :: k in items ==> k in found
    ensures PutStatuses(found, content, items, status, author, clock).1
            == |StatusCalls(found, items, status, author, clock)|
    decreases |items|
  {
    if items != [] {
      var k := items[0];
      var next := if StatusOf(found[k]) == status then content
        else content[k := Restatus(found[k], status, author, clock)];
      CountsItsPuts(found, next, items[1..], status, author, clock);
    }
  }

  /** The puts of a status change come in the order of the list. */
  lemma {:induction false} StatusCallsJoin(found: Content, a: seq<Key>, b: seq<Key>, status: string, author: string,
          clock: Clock)
    requires forall k :: k in a + b ==> k in found
    ensures (forall k :: k in a || k in b ==> k in found)
    ensures StatusCalls(found, a + b, status, author, clock)
            == StatusCalls(found, a, status, author, clock) + StatusCalls(found, b, status, author, clock)
  {
    assert forall k :: k in a || k in b ==> k in a + b;
    if a == [] {
      assert a + b == b;
    } else {
      assert (a + b)[0] == a[0] && (a + b)[1..] == a[1..] + b;
      StatusCallsJoin(found, a[1..], b, status, author, clock);
    }
  }
}
