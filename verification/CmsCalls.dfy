/** The store calls each write makes, in order. */
module CmsCalls {
  import opened Prelude
  import opened CmsModel
  import opened CmsWrites
  import opened CmsCascade
  import opened CmsAddresses

  /** One put if an item was written, none otherwise. */
  function PutCalls(name: string, r: Result<Outcome, CmsError>): seq<StoreOp> {
    if r.Ok? && r.value.Wrote? then [PutOp(name, r.value.item)] else []
  }

  function StatusCalls(found: Content, items: seq<Key>, status: string, author: string, clock: Clock): seq<StoreOp>
    requires forall k :: k in items ==> k in found
  {
    if items == [] then []
    else if StatusOf(found[items[0]]) == status then StatusCalls(found, items[1..], status, author, clock)
    else
      [PutOp(items[0].entity, Restatus(found[items[0]], status, author, clock))]
      + StatusCalls(found, items[1..], status, author, clock)
  }

  function SetStatusCalls(reg: Registry, content: Content, items: seq<Key>, status: string, author: string,
          clock: Clock): seq<StoreOp> {
    if Unknown(reg, content, items).Some? then [] else
    NoneUnknown(reg, content, items);
    StatusCalls(content, items, status, author, clock)
  }

  function EffectTargets(effects: seq<Effect>): (ts: seq<Target>)
    ensures forall t :: t in ts <==> RemoveEffect(t.entity, t.ref) in effects
  {
    if effects == [] then []
    else if effects[0].RemoveEffect? then [Target(effects[0].entity, effects[0].ref)] + EffectTargets(effects[1..])
    else EffectTargets(effects[1..])
  }

  function EffectPuts(effects: seq<Effect>): seq<StoreOp> {
    if effects == [] then []
    else if effects[0].PutEffect? then [PutOp(effects[0].entity, effects[0].item)] + EffectPuts(effects[1..])
    else EffectPuts(effects[1..])
  }

  /** One removal of the cascade and the effects' targets, then the effects' puts. */
  function RemovalCalls(reg: Registry, snapshot: Snapshot, content: Content, name: string, ref: Ref, author: string,
          clock: Clock): seq<StoreOp>
    requires reg.Valid() && reg.Has(name)
  {
    var ready := ReadyRemoval(reg, content, name, ref, author, clock);
    if reg.byName[name].fixedIds.Some? || ready.Err? then [] else
    [RemoveOp(Cascade(reg, snapshot, name, ready.value.existing) + EffectTargets(ready.value.effects))]
      + EffectPuts(ready.value.effects)
  }

  function DraftCalls(reg: Registry, snapshot: Snapshot, content: Content, op: Op): seq<StoreOp>
    requires reg.Valid() && op.RemoveDraft? && reg.Has(op.name)
  {
    var existing := LocateById(reg, content, op.name, op.id);
    if existing.Err? || StatusOf(existing.value) != DRAFT then []
    else RemovalCalls(reg, snapshot, content, op.name, reg.Def(op.name).RefOf(existing.value), op.author, op.clock)
  }

  function PublishCalls(reg: Registry, content: Content, op: Op): seq<StoreOp>
    requires op.Publish? && reg.Has(op.name)
  {
    var items := PublishTargets(reg, content, op);
    if items.Err? then [] else SetStatusCalls(reg, content, items.value, PUBLISHED, op.author, op.clock)
  }

  /** The store calls of a write, in order. */
  function Calls(reg: Registry, snapshot: Snapshot, content: Content, op: Op): seq<StoreOp>
    requires reg.Valid()
  {
    if op.SetStatus? then SetStatusCalls(reg, content, op.items, op.status, op.author, op.clock)
    else if !reg.Has(op.name) then []
    else if op.Create? then PutCalls(op.name, CreateItem(reg, content, op).1)
    else if op.Update? then PutCalls(op.name, UpdateItem(reg, content, op).1)
    else if op.Remove? then RemovalCalls(reg, snapshot, content, op.name, op.ref, op.author, op.clock)
    else if op.RemoveDraft? then DraftCalls(reg, snapshot, content, op)
    else PublishCalls(reg, content, op)
  }

  // Deletions call by call --------------------------------------------------------------------------

  lemma EffectKeys(effects: seq<Effect>)
    ensures KeysOf(EffectTargets(effects)) == EffectRemovals(effects)
  {
    var ts := EffectTargets(effects);
    forall e | e in effects && e.RemoveEffect? ensures Key(e.entity, e.ref.id) in KeysOf(ts) {
      assert Target(e.entity, e.ref) in ts && KeyOf(Target(e.entity, e.ref)) == Key(e.entity, e.ref.id);
    }
  }

  /** The content after the calls, whatever the store. */
  function OnContentAll(content: Content, calls: seq<StoreOp>): Content
    requires forall c :: c in calls && c.PutOp? ==> Id in c.item
    decreases |calls|
  {
    if calls == [] then content else OnContentAll(OnContent(content, calls[0]), calls[1..])
  }

  predicate PutsHaveIds(effects: seq<Effect>) {
    forall e :: e in effects && e.PutEffect? ==> Id in e.item
  }

  lemma {:induction false} EffectPutsAre(effects: seq<Effect>)
    ensures forall c :: c in EffectPuts(effects) <==> c.PutOp? && PutEffect(c.entity, c.item) in effects
  {
    if effects != [] { EffectPutsAre(effects[1..]); }
  }

  /** Making an effect list's puts one by one is applying them. */
  lemma {:induction false} EffectPutsApply(content: Content, effects: seq<Effect>)
    requires PutsHaveIds(effects)
    ensures forall c :: c in EffectPuts(effects) && c.PutOp? ==> Id in c.item
    ensures OnContentAll(content, EffectPuts(effects)) == ApplyPuts(content, effects)
    decreases |effects|
  {
    EffectPutsAre(effects);
    if effects != [] {
      var e := effects[0];
      assert e in effects;
      EffectPutsApply(if e.PutEffect? then content[Key(e.entity, e.item[Id]) := e.item] else content, effects[1..]);
      assert e.PutEffect? ==> EffectPuts(effects)[1..] == EffectPuts(effects[1..]);
    }
  }
}
