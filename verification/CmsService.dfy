/** The content service: every write done step by step against a store, through a cached index. */
module CmsService {
  import opened Prelude
  import opened CmsModel
  import opened CmsWrites
  import opened CmsIntegrity
  import opened CmsCascade
  import opened CmsIndex
  import opened CmsMemoryStore
  import opened CmsAddresses
  import opened CmsCalls
  import opened CmsCache

  /** The clock around one read and the load it may make, in milliseconds. */
  method Clocked() returns (now: int, load: Load)
    ensures load.Ordered() && now <= load.begun
  {
    now := *;
    var begun :| begun >= now;
    var taken :| taken >= begun;
    var stamped :| stamped >= taken;
    load := Load(begun, taken, stamped);
  }

  /** The index shows exactly this content. */
  ghost predicate Reads(index: ContentIndex, reg: Registry, content: Content)
    reads index
  {
    index.Valid() && index.reg == reg && Shows(reg, index.snapshot, content)
  }

  /**
   * A write whose loads and calls grew like this changed nothing before it had
   * loaded the store afresh.
   */
  ghost predicate ReadsFirst(loads0: seq<nat>, calls0: seq<StoreOp>, loads: seq<nat>, calls: seq<StoreOp>) {
    loads0 <= loads && (calls != calls0 ==> |loads| > |loads0| && loads[|loads0|] == |calls0|)
  }

  lemma LoadedFirst(loads0: seq<nat>, calls0: seq<StoreOp>, loads: seq<nat>, calls: seq<StoreOp>)
    requires loads0 + [|calls0|] <= loads
    ensures ReadsFirst(loads0, calls0, loads, calls)
  {
    assert loads[|loads0|] == (loads0 + [|calls0|])[|loads0|];
  }

  datatype Cached = Cached(index: ContentIndex, at: int)

  class ContentService {
    const store: InMemoryContentStore
    const reg: Registry
    const cacheTtlMs: int
    var cache: Option<Cached>
    /** The load the cache was filled by. */
    ghost var loaded: Option<Load>
    /** For each load, how many changes had been made to the store before it. */
    ghost var loads: seq<nat>

    /** The store is sound, and whatever is cached shows what the store holds. */
    ghost predicate Valid()
      reads this, store, if cache.Some? then {cache.value.index} else {}
    {
      && store.Valid() && store.reg == reg && HooksSafe(reg) && Sound(reg, store.content)
      && (cache.Some? ==> Reads(cache.value.index, reg, store.content))
      && (cache.Some? <==> loaded.Some?) && (cache.Some? ==> cache.value.at == loaded.value.stamped)
    }

    constructor (backing: InMemoryContentStore, registry: Registry, ttl: int)
      requires backing.Valid() && backing.reg == registry && HooksSafe(registry) && Sound(registry, backing.content)
      ensures Valid() && store == backing && reg == registry && cacheTtlMs == ttl && loaded == None
    {
      store, reg, cacheTtlMs, cache, loaded, loads := backing, registry, ttl, None, None, [];
    }

    /**
     * Cached or not, the index shows the store's content. The read is served from
     * the cache exactly if it need not be fresh and the cache is younger than its
     * lifetime, as `CmsCache` has it; else it loads, and fills the cache.
     */
    method Index(anew: bool) returns (index: ContentIndex, ghost read: Event, ghost load: Load)
      requires Valid()
      modifies this`cache, this`loaded, this`loads
      ensures Valid() && Reads(index, reg, store.content) && cache.Some? && cache.value.index == index
      ensures read.Read? && read.anew == anew && load.Ordered() && read.now <= load.begun
      ensures var hit := !anew && old(loaded).Some? && read.now - old(loaded).value.stamped < cacheTtlMs;
        && hit == Hits(old(loaded), read, cacheTtlMs)
        && loaded == (if hit then old(loaded) else CacheAfter(old(loaded), Fill(load)))
        && loads == (if hit then old(loads) else old(loads) + [|store.calls|])
        && if hit then cache == old(cache) else fresh(index) && loaded == Some(load)
    {
      var now, times := Clocked();
      read, load := Read(anew, now), times;
      if !anew && cache.Some? && Live(cache.value.at, now, cacheTtlMs) {
        index := cache.value.index;
        return;
      }
      var snapshot := store.LoadAll();
      index := new ContentIndex(snapshot, reg);
      cache, loaded, loads := Some(Cached(index, times.stamped)), Some(times), loads + [|store.calls|];
    }

    /** A write empties the cache. */
    method Clear()
      modifies this`cache, this`loaded
      ensures cache == None && loaded == CacheAfter(old(loaded), Invalidate)
    {
      cache, loaded := None, None;
    }

    // Lookups -----------------------------------------------------------------------------------------

    method FindStored(index: ContentIndex, k: Key, ghost content: Content) returns (found: Option<Item>)
      requires Reads(index, reg, content) && Keyed(reg, content) && reg.Has(k.entity)
      modifies index
      ensures Reads(index, reg, content) && found == CmsModel.Find(content, k)
    {
      found := index.ById(k.entity, k.id);
      ScanFinds(All(reg, index.snapshot, k.entity), content, k.entity, k.id);
    }

    method FindById(index: ContentIndex, name: string, id: string, ghost content: Content) returns (r: Result<Item,
            CmsError>)
      requires Reads(index, reg, content) && Keyed(reg, content) && reg.Has(name)
      modifies index
      ensures Reads(index, reg, content) && r == LocateById(reg, content, name, id)
    {
      var found := FindStored(index, Key(name, id), content);
      if found.Some? { return Ok(found.value); }
      var fixedIds := reg.byName[name].fixedIds;
      return if fixedIds.Some? && id in fixedIds.value then Ok(map[Id := id]) else Err(NotFound);
    }

    method FindParent(index: ContentIndex, name: string, parentId: Option<string>,
            ghost content: Content) returns (r: Result<Option<Item>, CmsError>)
      requires reg.Valid() && Reads(index, reg, content) && Keyed(reg, content) && reg.Has(name)
      modifies index
      ensures Reads(index, reg, content) && r == ParentOf(reg, content, name, parentId)
    {
      var parent := reg.Def(name).parent;
      if parent.None? { return Ok(None); }
      if parentId.GetOr("") == "" { return Err(BadRequest); }
      var found := FindById(index, parent.value.name, parentId.value, content);
      return match found case Ok(p) => Ok(Some(p)) case Err(e) => Err(e);
    }

    method FindRef(index: ContentIndex, name: string, ref: Ref, ghost content: Content) returns (r: Result<Item,
            CmsError>)
      requires reg.Valid() && Reads(index, reg, content) && Keyed(reg, content) && reg.Has(name)
      modifies index
      ensures Reads(index, reg, content) && r == Locate(reg, content, name, ref)
    {
      var def := reg.Def(name);
      var scoped := def.parent.Some? && ref.parentId.GetOr("") != "";
      if scoped {
        var parent := FindParent(index, name, ref.parentId, content);
        if parent.Err? { return Err(parent.error); }
      }
      var found := FindStored(index, Key(name, ref.id), content);
      if found.Some? && scoped && Get(found.value, def.parent.value.field) != ref.parentId { return Err(NotFound); }
      r := FindById(index, name, ref.id, content);
    }

    /** The stored item as a fresh load shows it. */
    method Find(name: string, id: string) returns (r: Result<Item, CmsError>)
      requires Valid() && reg.Has(name)
      modifies this`cache, this`loaded, this`loads
      ensures Valid() && r == LocateById(reg, store.content, name, id)
      ensures loads == old(loads) + [|store.calls|]
    {
      var index, _, _ := Index(true);
      r := FindById(index, name, id, store.content);
    }

    // Writes ------------------------------------------------------------------------------------------

    /** Stores an item and refreshes the index. */
    method Save(name: string, item: Item)
      requires Valid() && reg.Has(name) && Id in item && Sound(reg, store.content[Key(name, item[Id]) := item])
      modifies this`cache, this`loaded, this`loads, store
      ensures Valid() && store.content == old(store.content)[Key(name, item[Id]) := item]
      ensures store.calls == old(store.calls) + [PutOp(name, item)]
      ensures old(loads) <= loads
    {
      store.Put(name, item);
      Clear();
      var index, _, _ := Index(true);
    }

    /** The reading half of a creation: the item to store, or why none. */
    method ComposeCreate(op: Op) returns (r: Result<Item, CmsError>)
      requires Valid() && op.Create? && reg.Has(op.name) && reg.byName[op.name].fixedIds.None?
      requires Key(op.name, op.freshId) !in store.content
      modifies this`cache, this`loaded, this`loads
      ensures Valid() && loads == old(loads) + [|store.calls|]
      ensures r.Err? ==> CreateItem(reg, store.content, op) == (store.content, Err(r.error))
      ensures r.Ok? ==> StoresNew(reg, store.content, op, r.value)
    {
      var spec := reg.byName[op.name];
      ghost var content := store.content;
      var index, _, _ := Index(true);
      var parent := FindParent(index, op.name, op.parentId, content);
      if parent.Err? { return Err(parent.error); }
      WholeIs(reg, index.snapshot, content);
      var ctx := Ctx(Whole(reg, index.snapshot), op.author, op.clock.now, None, parent.value);
      r := Compose(spec, NewId(spec, op.input, ctx, op.freshId), op.input, ctx, op.clock.stamp);
      if r.Ok? { CreateStores(reg, content, op, parent.value, r.value); }
    }

    method Create(op: Op) returns (r: Result<Outcome, CmsError>)
      requires Valid() && op.Create? && reg.Has(op.name) && Key(op.name, op.freshId) !in store.content
      modifies this`cache, this`loaded, this`loads, store
      ensures Valid() && (store.content, r) == CreateItem(reg, old(store.content), op)
      ensures store.calls == old(store.calls) + PutCalls(op.name, r)
      ensures ReadsFirst(old(loads), old(store.calls), loads, store.calls)
    {
      if reg.byName[op.name].fixedIds.Some? { return Err(BadRequest); }
      var item := ComposeCreate(op);
      if item.Err? { return Err(item.error); }
      Save(op.name, item.value);
      LoadedFirst(old(loads), old(store.calls), loads, store.calls);
      return Ok(Wrote(item.value));
    }

    /** The reading half of an update: the item to store, or why none. */
    method ComposeUpdate(op: Op) returns (r: Result<Item, CmsError>)
      requires Valid() && op.Update? && reg.Has(op.name)
      modifies this`cache, this`loaded, this`loads
      ensures Valid()
      ensures r.Err? ==> UpdateItem(reg, store.content, op) == (store.content, Err(r.error))
      ensures r.Ok? ==> Stores(reg, store.content, op, r.value)
      ensures loads == old(loads) + [|store.calls|]
    {
      var spec := reg.byName[op.name];
      ghost var content := store.content;
      var index, _, _ := Index(true);
      var existing := FindRef(index, op.name, op.ref, content);
      if existing.Err? { return Err(existing.error); }
      var parent := FindParent(index, op.name, LinkOf(spec.def, existing.value), content);
      if parent.Err? { return Err(parent.error); }
      WholeIs(reg, index.snapshot, content);
      var ctx := Ctx(Whole(reg, index.snapshot), op.author, op.clock.now, Some(existing.value), parent.value);
      r := Compose(spec, IdOf(existing.value), op.input, ctx, op.clock.stamp);
      if r.Ok? { UpdateStores(reg, content, op, existing.value, parent.value, r.value); }
    }

    method Update(op: Op) returns (r: Result<Outcome, CmsError>)
      requires Valid() && op.Update? && reg.Has(op.name)
      modifies this`cache, this`loaded, this`loads, store
      ensures Valid() && (store.content, r) == UpdateItem(reg, old(store.content), op)
      ensures store.calls == old(store.calls) + PutCalls(op.name, r)
      ensures ReadsFirst(old(loads), old(store.calls), loads, store.calls)
    {
      var item := ComposeUpdate(op);
      if item.Err? { return Err(item.error); }
      Save(op.name, item.value);
      LoadedFirst(old(loads), old(store.calls), loads, store.calls);
      return Ok(Wrote(item.value));
    }

    /** Pushes an item and everything that hangs off it. */
    method CascadeInto(index: ContentIndex, entity: string, item: Item,
            removals: seq<Target>) returns (all: seq<Target>)
      requires reg.Valid() && reg.Has(entity)
      ensures all == removals + Cascade(reg, index.snapshot, entity, item)
      decreases Room(reg, entity), 2
    {
      all := removals + [Target(entity, reg.Def(entity).RefOf(item))];
      var types := ChildTypes(reg.specs, entity);
      ghost var total := removals + Cascade(reg, index.snapshot, entity, item);
      ChildTypesRegistered(reg, entity);
      assert types[0..] == types;
      for i := 0 to |types|
        invariant ChildrenTypes(reg, entity, types[i..])
        invariant all + CascadeTypes(reg, index.snapshot, entity, IdOf(item), types[i..]) == total
      {
        TypesStep(reg, index.snapshot, entity, IdOf(item), types[i..], all);
        assert types[i..][1..] == types[i + 1..];
        all := CascadeEach(index, types[i], ChildrenOf(reg, index.snapshot, types[i], IdOf(item)), all);
      }
    }

    method CascadeEach(index: ContentIndex, entity: string, items: seq<Item>,
            removals: seq<Target>) returns (all: seq<Target>)
      requires reg.Valid() && reg.Has(entity)
      ensures all == removals + CascadeItems(reg, index.snapshot, entity, items)
      decreases Room(reg, entity), 3
    {
      all := removals;
      assert items[0..] == items;
      for j := 0 to |items|
        invariant all + CascadeItems(reg, index.snapshot, entity, items[j..])
                  == removals + CascadeItems(reg, index.snapshot, entity, items)
      {
        assert items[j..][1..] == items[j + 1..];
        all := CascadeInto(index, entity, items[j], all);
      }
    }

    /** Sorts deletion effects into further removals and puts. */
    method AddEffects(effects: seq<Effect>, into: seq<Target>) returns (removals: seq<Target>, puts: seq<StoreOp>)
      ensures removals == into + EffectTargets(effects) && puts == EffectPuts(effects)
    {
      removals, puts := into, [];
      assert effects[0..] == effects;
      for i := 0 to |effects|
        invariant removals + EffectTargets(effects[i..]) == into + EffectTargets(effects)
        invariant puts + EffectPuts(effects[i..]) == EffectPuts(effects)
      {
        var e := effects[i];
        assert effects[i..][1..] == effects[i + 1..];
        if e.RemoveEffect? {
          removals := removals + [Target(e.entity, e.ref)];
        } else {
          puts := puts + [PutOp(e.entity, e.item)];
        }
      }
    }

    method PutAll(puts: seq<StoreOp>)
      requires store.Valid() && store.reg == reg
      requires forall c :: c in puts ==> c.PutOp? && reg.Has(c.entity) && Id in c.item
      modifies store
      ensures store.Valid() && store.content == OnContentAll(old(store.content), puts)
      ensures store.calls == old(store.calls) + puts
    {
      assert puts[0..] == puts && puts[..0] == [];
      for i := 0 to |puts|
        invariant store.Valid()
        invariant OnContentAll(store.content, puts[i..]) == OnContentAll(old(store.content), puts)
        invariant store.calls == old(store.calls) + puts[..i]
      {
        PutsStep(puts, i, store.content);
        store.Put(puts[i].entity, puts[i].item);
      }
      assert puts[..|puts|] == puts;
    }

    /** Deletes what was gathered, then stores what was put. */
    method Delete(removals: seq<Target>, puts: seq<StoreOp>)
      requires store.Valid() && store.reg == reg
      requires forall t :: t in removals ==> reg.Has(t.entity)
      requires forall c :: c in puts ==> c.PutOp? && reg.Has(c.entity) && Id in c.item
      modifies this`cache, this`loaded, store
      ensures store.Valid() && store.content == OnContentAll(old(store.content) - KeysOf(removals), puts)
      ensures store.calls == old(store.calls) + ([RemoveOp(removals)] + puts) && cache == None && loaded == None
    {
      store.Remove(removals);
      PutAll(puts);
      Clear();
    }

    /** What a deletion returns: the parent as it is now stored. */
    method ParentNow(name: string, existing: Item) returns (r: Result<Outcome, CmsError>)
      requires Valid() && reg.Has(name)
      modifies this`cache, this`loaded, this`loads
      ensures Valid() && r == ParentOutcome(reg, store.content, name, existing)
      ensures old(loads) <= loads
    {
      var def := reg.Def(name);
      if def.parent.None? { return Ok(Removed(None)); }
      var refreshed := Find(def.parent.value.name, LinkOf(def, existing).GetOr("undefined"));
      return match refreshed case Ok(p) => Ok(Removed(Some(p))) case Err(e) => Err(e);
    }

    method FindForRemoval(index: ContentIndex, name: string, ref: Ref, author: string, clock: Clock,
            ghost content: Content) returns (r: Result<Readied, CmsError>)
      requires reg.Valid() && Reads(index, reg, content) && Keyed(reg, content) && reg.Has(name)
      modifies index
      ensures Reads(index, reg, content) && r == ReadyRemoval(reg, content, name, ref, author, clock)
    {
      var spec := reg.byName[name];
      var existing := FindRef(index, name, ref, content);
      if existing.Err? { return Err(existing.error); }
      var parent := FindParent(index, name, LinkOf(spec.def, existing.value), content);
      if parent.Err? { return Err(parent.error); }
      WholeIs(reg, index.snapshot, content);
      var ctx := Ctx(Whole(reg, index.snapshot), author, clock.now, Some(existing.value), parent.value);
      return Ok(Readied(existing.value, spec.onDelete(existing.value, ctx)));
    }

    method Gather(index: ContentIndex, name: string, ready: Readied) returns (plan: Plan)
      requires reg.Valid() && reg.Has(name)
      ensures plan == PlanOf(reg, index.snapshot, name, ready)
    {
      var cascade := CascadeInto(index, name, ready.existing, []);
      var removals, puts := AddEffects(ready.effects, cascade);
      plan := Plan(ready.existing, removals, puts);
    }

    /** The reading half of a deletion: what to remove and what to put, or why neither. */
    method PlanRemoval(name: string, ref: Ref, author: string, clock: Clock)
      returns (r: Result<Plan, CmsError>, ghost seen: Snapshot)
      requires Valid() && reg.Has(name) && reg.byName[name].fixedIds.None?
      modifies this`cache, this`loaded, this`loads
      ensures Valid()
      ensures r.Err? ==>
              && RemovalCalls(reg, seen, store.content, name, ref, author, clock) == []
              && RemoveItem(reg, store.content, name, ref, author, clock) == (store.content, Err(r.error))
      ensures Shows(reg, seen, store.content)
      ensures r.Ok? ==>
              Carries(reg, store.content, name, r.value,
                RemovalCalls(reg, seen, store.content, name, ref, author, clock),
                                RemoveItem(reg, store.content, name, ref, author, clock))
      ensures loads == old(loads) + [|store.calls|]
    {
      ghost var content := store.content;
      var index, _, _ := Index(true);
      seen := index.snapshot;
      var ready := FindForRemoval(index, name, ref, author, clock, content);
      if ready.Err? { return Err(ready.error), seen; }
      var plan := Gather(index, name, ready.value);
      RemovalEffects(reg, content, name, ref, author, clock);
      RemovalPlanned(reg, seen, content, Key(name, ref.id), ready.value);
      return Ok(plan), seen;
    }

    /** The writing half of a deletion. */
    method CarryOut(name: string, plan: Plan, ghost calls: seq<StoreOp>,
            ghost outcome: Effected) returns (r: Result<Outcome, CmsError>)
      requires Valid() && reg.Has(name) && Carries(reg, store.content, name, plan, calls, outcome)
      modifies this`cache, this`loaded, this`loads, store
      ensures Valid() && (store.content, r) == outcome
      ensures store.calls == old(store.calls) + calls && old(loads) <= loads
    {
      Delete(plan.removals, plan.puts);
      r := ParentNow(name, plan.existing);
    }

    /** `seen` is the snapshot the deletion read. */
    method Remove(name: string, ref: Ref, author: string, clock: Clock)
      returns (r: Result<Outcome, CmsError>, ghost seen: Snapshot)
      requires Valid() && reg.Has(name)
      modifies this`cache, this`loaded, this`loads, store
      ensures Valid() && (store.content, r) == RemoveItem(reg, old(store.content), name, ref, author, clock)
      ensures store.calls == old(store.calls) + RemovalCalls(reg, seen, old(store.content), name, ref, author, clock)
      ensures store.calls != old(store.calls) ==> Shows(reg, seen, old(store.content))
      ensures ReadsFirst(old(loads), old(store.calls), loads, store.calls)
    {
      seen := map[];
      ghost var content := store.content;
      if reg.byName[name].fixedIds.Some? {
        FixedStays(reg, seen, content, name, ref, author, clock);
        return Err(BadRequest), seen;
      }
      var plan;
      plan, seen := PlanRemoval(name, ref, author, clock);
      if plan.Err? { return Err(plan.error), seen; }
      r := CarryOut(name, plan.value, RemovalCalls(reg, seen, content, name, ref, author, clock),
        RemoveItem(reg, content, name, ref, author, clock));
      LoadedFirst(old(loads), old(store.calls), loads, store.calls);
    }

    /** Deletes an item only while it is a draft. */
    method RemoveDraft(op: Op) returns (r: Result<Outcome, CmsError>, ghost seen: Snapshot)
      requires Valid() && op.RemoveDraft? && reg.Has(op.name)
      modifies this`cache, this`loaded, this`loads, store
      ensures Valid() && (store.content, r) == RemoveDraftItem(reg, old(store.content), op)
      ensures store.calls == old(store.calls) + DraftCalls(reg, seen, old(store.content), op)
      ensures store.calls != old(store.calls) ==> Shows(reg, seen, old(store.content))
      ensures ReadsFirst(old(loads), old(store.calls), loads, store.calls)
    {
      seen := map[];
      var existing := Find(op.name, op.id);
      if existing.Err? { return Err(existing.error), seen; }
      if StatusOf(existing.value) != DRAFT { return Err(BadRequest), seen; }
      r, seen := Remove(op.name, reg.Def(op.name).RefOf(existing.value), op.author, op.clock);
      LoadedFirst(old(loads), old(store.calls), loads, store.calls);
      if r.Ok? { r := Ok(Removed(None)); }
    }

    /** Finds every named item before anything is written. */
    method FindAll(index: ContentIndex, items: seq<Key>, ghost content: Content) returns (r: Result<seq<Item>,
            CmsError>)
      requires Reads(index, reg, content) && Keyed(reg, content)
      modifies index
      decreases |items|
      ensures Reads(index, reg, content)
      ensures r.Err? ==> Unknown(reg, content, items) == Some(r.error)
      ensures r.Ok? ==> Unknown(reg, content, items) == None && AllFound(content, items, r.value)
    {
      if items == [] { return Ok([]); }
      if !reg.Has(items[0].entity) { return Err(BadRequest); }
      var item := FindStored(index, items[0], content);
      if item.None? { return Err(NotFound); }
      var rest := FindAll(index, items[1..], content);
      if rest.Err? { return rest; }
      FoundFirst(content, items, item.value, rest.value);
      return Ok([item.value] + rest.value);
    }

    method PutStatus(k: Key, found: Item, status: string, author: string, clock: Clock) returns (changed: nat)
      requires store.Valid() && store.reg == reg && reg.Has(k.entity) && Get(found, Id) == Some(k.id)
      modifies store
      ensures store.Valid()
      ensures StatusOf(found) == status ==>
              changed == 0 && store.content == old(store.content) && store.calls == old(store.calls)
      ensures StatusOf(found) != status ==>
        && changed == 1 && store.content == old(store.content)[k := Restatus(found, status, author, clock)]
        && store.calls == old(store.calls) + [PutOp(k.entity, Restatus(found, status, author, clock))]
    {
      if StatusOf(found) == status { return 0; }
      RestatusFacts(found, status, author, clock);
      store.Put(k.entity, Restatus(found, status, author, clock));
      return 1;
    }

    /** Stores each found item whose status differs, in order, and counts them. */
    method PutAllStatuses(status: string, items: seq<Key>, found: seq<Item>, author: string, clock: Clock,
            ghost content: Content) returns (updated: nat)
      requires store.Valid() && store.reg == reg && content == store.content && Keyed(reg, content)
      requires AllFound(content, items, found) && forall k :: k in items ==> k in content && reg.Has(k.entity)
      modifies store
      ensures store.Valid() && (store.content, updated) == PutStatuses(content, content, items, status, author, clock)
      ensures store.calls == old(store.calls) + StatusCalls(content, items, status, author, clock)
    {
      updated := 0;
      assert items[0..] == items;
      for i := 0 to |items|
        invariant store.Valid() && StillToPut(content, store.content, items, i, status, author, clock, updated)
        invariant StillToCall(content, old(store.calls), store.calls, items, i, status, author, clock)
      {
        StillToPutStep(content, store.content, items, i, status, author, clock, updated);
        StillToCallStep(content, old(store.calls), store.calls, items, i, status, author, clock);
        FoundIs(reg, content, items, found, i);
        var changed := PutStatus(items[i], found[i], status, author, clock);
        updated := updated + changed;
      }
    }

    method SetStatus(status: string, items: seq<Key>, author: string, clock: Clock) returns (r: Result<Outcome,
            CmsError>)
      requires Valid()
      modifies this`cache, this`loaded, this`loads, store
      ensures Valid() && (store.content, r) == SetStatuses(reg, old(store.content), status, items, author, clock)
      ensures store.calls == old(store.calls) + SetStatusCalls(reg, old(store.content), items, status, author, clock)
      ensures ReadsFirst(old(loads), old(store.calls), loads, store.calls)
    {
      ghost var content := store.content;
      var index, _, _ := Index(true);
      var found := FindAll(index, items, content);
      if found.Err? { return Err(found.error); }
      NoneUnknown(reg, content, items);
      SetStatusesKeep(reg, content, status, items, author, clock);
      var updated := PutAllStatuses(status, items, found.value, author, clock, content);
      Clear();
      LoadedFirst(old(loads), old(store.calls), loads, store.calls);
      return Ok(Updated(updated));
    }

    method FindToPublish(op: Op) returns (r: Result<seq<Key>, CmsError>)
      requires Valid() && op.Publish? && reg.Has(op.name)
      modifies this`cache, this`loaded, this`loads
      ensures Valid() && r == PublishTargets(reg, store.content, op)
      ensures loads == old(loads) + [|store.calls|]
    {
      var spec := reg.byName[op.name];
      ghost var content := store.content;
      var index, _, _ := Index(true);
      var existing := FindById(index, op.name, op.id, content);
      if existing.Err? { return Err(existing.error); }
      if spec.publish.None? { return Err(BadRequest); }
      WholeIs(reg, index.snapshot, content);
      var ctx := Ctx(Whole(reg, index.snapshot), op.author, op.clock.now, Some(existing.value), None);
      var linked := op.includeLinked == Some(true);
      var children := linked || op.includeChildren != Some(false);
      return Ok([Key(op.name, op.id)] + spec.publish.value(existing.value, ctx, PublishOptions(children, linked)));
    }

    /** Makes an item public together with whatever its type's publication names. */
    method Publish(op: Op) returns (r: Result<Outcome, CmsError>)
      requires Valid() && op.Publish? && reg.Has(op.name)
      modifies this`cache, this`loaded, this`loads, store
      ensures Valid() && (store.content, r) == PublishItem(reg, old(store.content), op)
      ensures store.calls == old(store.calls) + PublishCalls(reg, old(store.content), op)
      ensures ReadsFirst(old(loads), old(store.calls), loads, store.calls)
    {
      var items := FindToPublish(op);
      if items.Err? { return Err(items.error); }
      var published := SetStatus(PUBLISHED, items.value, op.author, op.clock);
      LoadedFirst(old(loads), old(store.calls), loads, store.calls);
      if published.Err? { return published; }
      var item := Find(op.name, op.id);
      return match item case Ok(i) => Ok(Wrote(i)) case Err(e) => Err(e);
    }

    /**
     * Any write, named by type: exactly the specified step, by exactly the
     * specified store calls, with the store sound and the cache in agreement
     * afterwards. `seen` is the snapshot a deletion read.
     */
    method Apply(op: Op) returns (r: Result<Outcome, CmsError>, ghost seen: Snapshot)
      requires Valid() && Fresh(store.content, op)
      modifies this`cache, this`loaded, this`loads, store
      ensures Valid() && (store.content, r) == Step(reg, old(store.content), op)
      ensures store.calls == old(store.calls) + Calls(reg, seen, old(store.content), op)
      ensures (op.Remove? || op.RemoveDraft?) && store.calls != old(store.calls) ==>
              Shows(reg, seen, old(store.content))
      ensures ReadsFirst(old(loads), old(store.calls), loads, store.calls)
    {
      seen := map[];
      if op.SetStatus? {
        r := SetStatus(op.status, op.items, op.author, op.clock);
      } else if !reg.Has(op.name) {
        r := Err(UnknownEntity);
      } else if op.Create? {
        r := Create(op);
      } else if op.Update? {
        r := Update(op);
      } else if op.Remove? {
        r, seen := Remove(op.name, op.ref, op.author, op.clock);
      } else if op.RemoveDraft? {
        r, seen := RemoveDraft(op);
      } else {
        r := Publish(op);
      }
    }
  }

  lemma PutsStep(puts: seq<StoreOp>, i: nat, content: Content)
    requires i < |puts| && forall c :: c in puts ==> c.PutOp? && Id in c.item
    ensures puts[i] in puts && puts[..i + 1] == puts[..i] + [puts[i]]
    ensures OnContentAll(content, puts[i..]) == OnContentAll(OnContent(content, puts[i]), puts[i + 1..])
  {
    assert puts[i..][0] == puts[i] && puts[i..][1..] == puts[i + 1..];
  }

  ghost predicate AllFound(content: Content, items: seq<Key>, found: seq<Item>) {
    |found| == |items| && forall i :: 0 <= i < |items| ==> CmsModel.Find(content, items[i]) == Some(found[i])
  }

  lemma FoundFirst(content: Content, items: seq<Key>, item: Item, rest: seq<Item>)
    requires items != [] && CmsModel.Find(content, items[0]) == Some(item) && AllFound(content, items[1..], rest)
    ensures AllFound(content, items, [item] + rest)
  {
    forall i | 0 < i < |items|
      ensures CmsModel.Find(content, items[i]) == Some(rest[i - 1])
    {
      assert items[i] == items[1..][i - 1];
    }
  }

  lemma FoundIs(reg: Registry, content: Content, items: seq<Key>, found: seq<Item>, i: nat)
    requires Keyed(reg, content) && AllFound(content, items, found) && i < |items|
    ensures items[i] in content && found[i] == content[items[i]] && Get(found[i], Id) == Some(items[i].id)
    ensures reg.Has(items[i].entity)
  {
    assert CmsModel.Find(content, items[i]) == Some(found[i]);
  }

  lemma StillToPutStep(found: Content, now: Content, items: seq<Key>, i: nat, status: string, author: string,
          clock: Clock, updated: nat)
    requires i < |items| && (forall k :: k in items ==> k in found)
    requires StillToPut(found, now, items, i, status, author, clock, updated)
    ensures var k := items[i];
      if StatusOf(found[k]) == status then StillToPut(found, now, items, i + 1, status, author, clock, updated)
      else StillToPut(found, now[k := Restatus(found[k], status, author, clock)], items, i + 1, status, author, clock,
        updated + 1)
  {
    assert items[i..][0] == items[i] && items[i..][1..] == items[i + 1..];
  }

  /** After `i` of the items, the puts left over complete the specified ones. */
  ghost predicate StillToPut(found: Content, now: Content, items: seq<Key>, i: nat, status: string, author: string,
          clock: Clock, updated: nat)
    requires i <= |items| && forall k :: k in items ==> k in found
  {
    var all := PutStatuses(found, found, items, status, author, clock);
    var rest := PutStatuses(found, now, items[i..], status, author, clock);
    all.0 == rest.0 && all.1 == updated + rest.1
  }

  /** Of the calls the status changes make, those of the first `i` items are made. */
  ghost predicate StillToCall(found: Content, before: seq<StoreOp>, now: seq<StoreOp>, items: seq<Key>, i: nat,
          status: string, author: string, clock: Clock)
    requires i <= |items| && forall k :: k in items ==> k in found
  {
    now + StatusCalls(found, items[i..], status, author, clock)
      == before + StatusCalls(found, items, status, author, clock)
  }

  lemma StillToCallStep(found: Content, before: seq<StoreOp>, now: seq<StoreOp>, items: seq<Key>, i: nat,
          status: string, author: string, clock: Clock)
    requires i < |items| && (forall k :: k in items ==> k in found)
    requires StillToCall(found, before, now, items, i, status, author, clock)
    ensures var k := items[i];
      var made := if StatusOf(found[k]) == status then []
        else [PutOp(k.entity, Restatus(found[k], status, author, clock))];
      StillToCall(found, before, now + made, items, i + 1, status, author, clock)
  {
    assert items[i..][0] == items[i] && items[i..][1..] == items[i + 1..];
    assert now + [] == now;
  }

  datatype Plan = Plan(existing: Item, removals: seq<Target>, puts: seq<StoreOp>)

  /** Carrying the plan out makes these calls and has this outcome. */
  ghost predicate Carries(reg: Registry, content: Content, name: string, plan: Plan, calls: seq<StoreOp>,
          outcome: Effected)
    requires reg.Has(name)
  {
    && (forall t :: t in plan.removals ==> reg.Has(t.entity))
    && (forall c :: c in plan.puts ==> c.PutOp? && reg.Has(c.entity) && Id in c.item)
    && [RemoveOp(plan.removals)] + plan.puts == calls
    && var after := OnContentAll(content - KeysOf(plan.removals), plan.puts);
    && outcome == (after, ParentOutcome(reg, after, name, plan.existing))
    && Sound(reg, after)
  }

  lemma PlanIsDoom(reg: Registry, snapshot: Snapshot, content: Content, k: Key, effects: seq<Effect>)
    requires reg.Valid() && Keyed(reg, content) && Shows(reg, snapshot, content) && k in content
    requires EffectsSafe(reg, content, k, effects)
    ensures var removals := Cascade(reg, snapshot, k.entity, content[k]) + EffectTargets(effects);
      && (forall t :: t in removals ==> reg.Has(t.entity))
      && (forall c :: c in EffectPuts(effects) ==> c.PutOp? && reg.Has(c.entity) && Id in c.item)
      && KeysOf(removals) == Doomed(reg, content, k, effects)
      && OnContentAll(content - KeysOf(removals), EffectPuts(effects))
         == ApplyPuts(content - Doomed(reg, content, k, effects), effects)
  {
    var cascade := Cascade(reg, snapshot, k.entity, content[k]);
    CascadeIsSubtree(reg, snapshot, content, k);
    EffectPutsAre(effects);
    EffectKeys(effects);
    forall e | e in effects ensures reg.Has(e.entity) && (e.PutEffect? ==> Id in e.item) {
      assert EffectSafe(reg, content, Doomed(reg, content, k, effects), e);
    }
    assert KeysOf(cascade + EffectTargets(effects)) == KeysOf(cascade) + KeysOf(EffectTargets(effects));
    EffectPutsApply(content - Doomed(reg, content, k, effects), effects);
  }

  /** The lists a deletion gathers: its cascade and its effects' removals, and its effects' puts. */
  function PlanOf(reg: Registry, snapshot: Snapshot, name: string, ready: Readied): Plan
    requires reg.Valid() && reg.Has(name)
  {
    Plan(ready.existing, Cascade(reg, snapshot, name, ready.existing) + EffectTargets(ready.effects),
      EffectPuts(ready.effects))
  }

  /** The lists a deletion gathers take exactly what its specification dooms, and can all be addressed. */
  lemma RemovalPlanned(reg: Registry, snapshot: Snapshot, content: Content, k: Key, ready: Readied)
    requires reg.Valid() && Keyed(reg, content) && Shows(reg, snapshot, content)
    requires k in content && ready.existing == content[k] && EffectsSafe(reg, content, k, ready.effects)
    requires Sound(reg, ApplyPuts(content - Doomed(reg, content, k, ready.effects), ready.effects))
    ensures var after := ApplyPuts(content - Doomed(reg, content, k, ready.effects), ready.effects);
      var plan := PlanOf(reg, snapshot, k.entity, ready);
      Carries(reg, content, k.entity, plan, [RemoveOp(plan.removals)] + plan.puts,
        (after, ParentOutcome(reg, after, k.entity, ready.existing)))
  {
    PlanIsDoom(reg, snapshot, content, k, ready.effects);
  }

  lemma RemovalEffects(reg: Registry, content: Content, name: string, ref: Ref, author: string, clock: Clock)
    requires reg.Valid() && HooksSafe(reg) && Sound(reg, content) && reg.Has(name)
    requires reg.byName[name].fixedIds.None? && ReadyRemoval(reg, content, name, ref, author, clock).Ok?
    ensures var k, ready := Key(name, ref.id), ReadyRemoval(reg, content, name, ref, author, clock).value;
      && k in content && ready.existing == content[k] && EffectsSafe(reg, content, k, ready.effects)
      && var after := ApplyPuts(content - Doomed(reg, content, k, ready.effects), ready.effects);
      && RemoveItem(reg, content, name, ref, author, clock) == (after, ParentOutcome(reg, after, name, ready.existing))
      && Sound(reg, after)
  {
    RemoveProceeds(reg, content, name, ref, author, clock);
    RemoveTakesTheSubtree(reg, content, name, ref, author, clock);
    StoredEffectsSafe(reg, content, name, ref.id, author, clock);
  }

  lemma FixedStays(reg: Registry, snapshot: Snapshot, content: Content, name: string, ref: Ref, author: string,
          clock: Clock)
    requires reg.Valid() && Keyed(reg, content) && reg.Has(name) && reg.byName[name].fixedIds.Some?
    ensures RemovalCalls(reg, snapshot, content, name, ref, author, clock) == []
    ensures RemoveItem(reg, content, name, ref, author, clock) == (content, Err(BadRequest))
  {
  }

  /** The creation stores this item. */
  ghost predicate StoresNew(reg: Registry, content: Content, op: Op, item: Item)
    requires op.Create? && reg.Has(op.name)
  {
    && Id in item && Sound(reg, content[Key(op.name, item[Id]) := item])
    && CreateItem(reg, content, op) == (content[Key(op.name, item[Id]) := item], Ok(Wrote(item)))
  }

  /** A creation that finds its parent and composes an item stores that item. */
  lemma CreateStores(reg: Registry, content: Content, op: Op, parent: Option<Item>, item: Item)
    requires reg.Valid() && HooksSafe(reg) && Sound(reg, content) && op.Create? && reg.Has(op.name)
    requires reg.byName[op.name].fixedIds.None? && Key(op.name, op.freshId) !in content
    requires ParentOf(reg, content, op.name, op.parentId) == Ok(parent)
    requires var spec, ctx := reg.byName[op.name], Ctx(content, op.author, op.clock.now, None, parent);
      Compose(spec, NewId(spec, op.input, ctx, op.freshId), op.input, ctx, op.clock.stamp) == Ok(item)
    ensures StoresNew(reg, content, op, item)
  {
    var spec, ctx := reg.byName[op.name], Ctx(content, op.author, op.clock.now, None, parent);
    Composed(spec, NewId(spec, op.input, ctx, op.freshId), op.input, ctx, op.clock.stamp);
    CreateKeeps(reg, content, op);
  }

  /** The update stores this item. */
  ghost predicate Stores(reg: Registry, content: Content, op: Op, item: Item)
    requires op.Update? && reg.Has(op.name)
  {
    && Id in item && Sound(reg, content[Key(op.name, item[Id]) := item])
    && UpdateItem(reg, content, op) == (content[Key(op.name, item[Id]) := item], Ok(Wrote(item)))
  }

  /** An update that finds its item and parent and composes an item stores that item. */
  lemma UpdateStores(reg: Registry, content: Content, op: Op, existing: Item, parent: Option<Item>, item: Item)
    requires reg.Valid() && Sound(reg, content) && op.Update? && reg.Has(op.name)
    requires Locate(reg, content, op.name, op.ref) == Ok(existing)
    requires ParentOf(reg, content, op.name, LinkOf(reg.Def(op.name), existing)) == Ok(parent)
    requires Compose(reg.byName[op.name], IdOf(existing), op.input,
             Ctx(content, op.author, op.clock.now, Some(existing), parent), op.clock.stamp) == Ok(item)
    ensures Stores(reg, content, op, item)
  {
    Composed(reg.byName[op.name], IdOf(existing), op.input,
      Ctx(content, op.author, op.clock.now, Some(existing), parent), op.clock.stamp);
    UpdateKeeps(reg, content, op);
  }

  lemma Composed(spec: EntitySpec, id: string, input: Item, ctx: Ctx, stamp: string)
    requires Compose(spec, id, input, ctx, stamp).Ok? && (spec.def.parent.Some? ==> spec.def.parent.value.field.Named?)
    ensures Get(Compose(spec, id, input, ctx, stamp).value, Id) == Some(id)
  {
  }
}
