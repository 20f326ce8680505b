/** The service over the single table: its writes, call by call, keep the table representing the content. */
module CmsOnTable {
  import opened Prelude
  import opened CmsModel
  import opened CmsWrites
  import opened CmsIntegrity
  import opened CmsCascade
  import opened CmsAddresses
  import opened CmsCalls
  import opened CmsTable
  import opened CmsDynamoStore

  // Runs of store calls -------------------------------------------------------------------------

  /** Respectful calls, one after the other, lead from one content to the other. */
  ghost predicate Reaches(reg: Registry, content: Content, calls: seq<StoreOp>, after: Content)
    decreases |calls|
  {
    if calls == [] then content == after
    else Respects(reg, content, calls[0]) && Reaches(reg, OnContent(content, calls[0]), calls[1..], after)
  }

  /** The table serves the call: every put, and a removal none of whose batches repeats a key. */
  ghost predicate Served(reg: Registry, call: StoreOp) {
    Resolved(reg, call) && (call.RemoveOp? ==> BatchesDistinct(reg, call.targets))
  }

  /** The rows after the calls, on a table without faults; nothing once a call is refused. */
  ghost function TableAfter(reg: Registry, rows: Rows, calls: seq<StoreOp>): Option<Rows>
    decreases |calls|
  {
    if calls == [] then Some(rows)
    else if !Served(reg, calls[0]) then None
    else TableAfter(reg, OnRows(reg, rows, calls[0]), calls[1..])
  }

  lemma {:induction false} ServedAll(reg: Registry, rows: Rows, calls: seq<StoreOp>)
    ensures TableAfter(reg, rows, calls).Some? <==> forall c :: c in calls ==> Served(reg, c)
    decreases |calls|
  {
    if calls != [] {
      assert forall c :: c in calls <==> c == calls[0] || c in calls[1..];
      if Served(reg, calls[0]) { ServedAll(reg, OnRows(reg, rows, calls[0]), calls[1..]); }
    }
  }

  lemma {:induction false} ReachesOnRows(reg: Registry, rows: Rows, content: Content, calls: seq<StoreOp>,
          after: Content)
    requires DistinctKeys(reg) && Represents(reg, rows, content) && Reaches(reg, content, calls, after)
    ensures forall c :: c in calls ==> Resolved(reg, c)
    ensures TableAfter(reg, rows, calls).Some? ==> Represents(reg, TableAfter(reg, rows, calls).value, after)
    decreases |calls|
  {
    if calls != [] {
      StepsTogether(reg, rows, content, calls[0]);
      ReachesOnRows(reg, OnRows(reg, rows, calls[0]), OnContent(content, calls[0]), calls[1..], after);
    }
  }

  // Plain hooks -------------------------------------------------------------------------------------

  ghost predicate AllPlain(content: Content) {
    forall k :: k in content ==> Plain(content[k])
  }

  /** A put effect uses no key properties; a removal effect names a stored item where it is stored. */
  predicate EffectPlain(reg: Registry, content: Content, e: Effect) {
    match e
    case PutEffect(_, item) => Plain(item)
    case RemoveEffect(entity, ref) =>
      reg.Has(entity) && Key(entity, ref.id) in content ==>
        reg.Def(entity).Address(ref) == AddressOf(reg, Key(entity, ref.id), content[Key(entity, ref.id)])
  }

  ghost predicate EffectsPlain(reg: Registry, content: Content, effects: seq<Effect>) {
    forall e :: e in effects ==> EffectPlain(reg, content, e)
  }

  predicate PlainResult(r: Result<Patch, CmsError>) {
    r.Ok? ==> PlainPatch(r.value)
  }

  predicate PlainPatch(patch: Patch) {
    patch.Keys !! KEY_FIELDS
  }

  /** What the table asks of an app's hooks besides `HooksSafe`. */
  ghost predicate HooksPlain(reg: Registry) {
    && (forall n: string, input: Item, ctx: Ctx :: n in reg.byName ==> PlainResult(reg.byName[n].fields(input, ctx)))
    && (forall n: string, item: Item, ctx: Ctx ::
       n in reg.byName ==> EffectsPlain(reg, ctx.index, reg.byName[n].onDelete(item, ctx)))
  }

  /** The removals a deletion's effects name are distinct items outside the subtree it takes anyway. */
  ghost predicate Apart(reg: Registry, content: Content, root: Key, effects: seq<Effect>)
    requires reg.Valid() && Keyed(reg, content) && forall t :: t in EffectTargets(effects) ==> reg.Has(t.entity)
  {
    && EachOnce(Addresses(reg, EffectTargets(effects)))
    && (forall t :: t in EffectTargets(effects) ==> KeyOf(t) !in Subtree(reg, content, root))
  }

  ghost predicate EffectsApart(reg: Registry, content: Content, root: Key, effects: seq<Effect>) {
    reg.Valid() && Keyed(reg, content) && (forall t :: t in EffectTargets(effects) ==> reg.Has(t.entity)) ==>
      Apart(reg, content, root, effects)
  }

  /** What keeps the table from refusing a deletion: see `DeletionServedIff`. */
  ghost predicate HooksApart(reg: Registry) {
    forall n: string, item: Item, ctx: Ctx :: n in reg.byName && Id in item ==>
      EffectsApart(reg, ctx.index, Key(n, item[Id]), reg.byName[n].onDelete(item, ctx))
  }

  lemma AssemblePlain(p: Option<ParentDef>, id: string, fields: Patch, status: string, ctx: Ctx, stamp: string)
    requires PlainPatch(fields) && Plain(ctx.existing.GetOr(map[])) && (p.Some? ==> p.value.field.Named?)
    ensures Plain(Assemble(p, id, fields, status, ctx, stamp))
  {
  }

  lemma RestatusPlain(found: Item, status: string, author: string, clock: Clock)
    requires Plain(found)
    ensures Plain(Restatus(found, status, author, clock))
  {
  }

  // One write -----------------------------------------------------------------------------------------------

  lemma OnePut(reg: Registry, content: Content, k: Key, item: Item)
    requires reg.Valid() && Keyed(reg, content) && reg.Has(k.entity) && Get(item, Id) == Some(k.id) && Plain(item)
    requires Stays(reg, content, k, item)
    ensures Reaches(reg, content, [PutOp(k.entity, item)], content[k := item])
  {
    var call := PutOp(k.entity, item);
    assert [call][1..] == [];
    assert Respects(reg, content, call) && OnContent(content, call) == content[k := item];
  }

  lemma CreateReaches(reg: Registry, content: Content, op: Op)
    requires reg.Valid() && HooksSafe(reg) && HooksPlain(reg) && Sound(reg, content) && op.Create? && reg.Has(op.name)
    requires Key(op.name, op.freshId) !in content
    ensures var (after, r) := CreateItem(reg, content, op); Reaches(reg, content, PutCalls(op.name, r), after)
  {
    var spec, r := reg.byName[op.name], CreateItem(reg, content, op);
    if r.1.Ok? {
      var ctx := Ctx(content, op.author, op.clock.now, None, ParentOf(reg, content, op.name, op.parentId).value);
      var id := NewId(spec, op.input, ctx, op.freshId);
      NewIdIsNew(reg, op, ctx);
      AssembledFits(reg, content, op.name, op.parentId, id, spec.fields(op.input, ctx).value,
        NewStatus(spec, op.input, ctx), ctx, op.clock.stamp);
      assert PlainResult(spec.fields(op.input, ctx));
      AssemblePlain(spec.def.parent, id, spec.fields(op.input, ctx).value, NewStatus(spec, op.input, ctx), ctx,
        op.clock.stamp);
      OnePut(reg, content, Key(op.name, id), r.1.value.item);
    }
  }

  lemma UpdateReaches(reg: Registry, content: Content, op: Op)
    requires reg.Valid() && HooksPlain(reg) && Sound(reg, content) && AllPlain(content) && op.Update?
    requires reg.Has(op.name)
    ensures var (after, r) := UpdateItem(reg, content, op); Reaches(reg, content, PutCalls(op.name, r), after)
  {
    var spec, r := reg.byName[op.name], UpdateItem(reg, content, op);
    if r.1.Ok? {
      var existing := Locate(reg, content, op.name, op.ref).value;
      var k := Key(op.name, op.ref.id);
      var ctx :=
        Ctx(content, op.author, op.clock.now, Some(existing),
          ParentOf(reg, content, op.name, LinkOf(spec.def, existing)).value);
      UpdatedFits(reg, content, k, spec.fields(op.input, ctx).value, NewStatus(spec, op.input, ctx), ctx,
        op.clock.stamp);
      assert PlainResult(spec.fields(op.input, ctx));
      AssemblePlain(spec.def.parent, k.id, spec.fields(op.input, ctx).value, NewStatus(spec, op.input, ctx), ctx,
        op.clock.stamp);
      KeptItemsStay(reg, content, k, r.1.value.item);
      OnePut(reg, content, k, r.1.value.item);
    }
  }

  /** The same items under the same ids and links. */
  ghost predicate SameLinks(reg: Registry, a: Content, b: Content) {
    && Keyed(reg, a) && Keyed(reg, b) && a.Keys == b.Keys
    && (forall k :: k in a ==> LinkText(reg.Def(k.entity), a[k]) == LinkText(reg.Def(k.entity), b[k]))
  }

  lemma PutInPlace(reg: Registry, base: Content, content: Content, k: Key, item: Item)
    requires reg.Valid() && SameLinks(reg, base, content) && k in base && Get(item, Id) == Some(k.id) && Plain(item)
    requires LinkText(reg.Def(k.entity), base[k]) == LinkText(reg.Def(k.entity), item)
    ensures var call := PutOp(k.entity, item);
      Respects(reg, content, call) && OnContent(content, call) == content[k := item]
    ensures SameLinks(reg, base, content[k := item])
  {
  }

  lemma {:induction false} StatusesReach(reg: Registry, found: Content, content: Content, items: seq<Key>,
          status: string, author: string, clock: Clock)
    requires reg.Valid() && AllPlain(found) && SameLinks(reg, found, content) && forall k :: k in items ==> k in found
    ensures Reaches(reg, content, StatusCalls(found, items, status, author, clock),
            PutStatuses(found, content, items, status, author, clock).0)
    decreases |items|
  {
    if items != [] {
      var k := items[0];
      if StatusOf(found[k]) == status {
        StatusesReach(reg, found, content, items[1..], status, author, clock);
      } else {
        var item := Restatus(found[k], status, author, clock);
        RestatusFacts(found[k], status, author, clock);
        RestatusPlain(found[k], status, author, clock);
        PutInPlace(reg, found, content, k, item);
        StatusesReach(reg, found, content[k := item], items[1..], status, author, clock);
        assert StatusCalls(found, items, status, author, clock)[1..]
          == StatusCalls(found, items[1..], status, author, clock);
      }
    }
  }

  lemma SetStatusReaches(reg: Registry, content: Content, items: seq<Key>, status: string, author: string, clock: Clock)
    requires reg.Valid() && Keyed(reg, content) && AllPlain(content)
    ensures Reaches(reg, content, SetStatusCalls(reg, content, items, status, author, clock),
            SetStatuses(reg, content, status, items, author, clock).0)
  {
    NoneUnknown(reg, content, items);
    if Unknown(reg, content, items).None? { StatusesReach(reg, content, content, items, status, author, clock); }
  }

  /** What an effect puts keeps the id and link of an item that is there. */
  ghost predicate PutsStay(reg: Registry, content: Content, effects: seq<Effect>) {
    forall e :: e in effects && e.PutEffect? ==>
      && reg.Has(e.entity) && Id in e.item && Plain(e.item)
      && Key(e.entity, e.item[Id]) in content
      && LinkText(reg.Def(e.entity), content[Key(e.entity, e.item[Id])]) == LinkText(reg.Def(e.entity), e.item)
  }

  lemma {:induction false} PutsReach(reg: Registry, base: Content, content: Content, effects: seq<Effect>)
    requires reg.Valid() && SameLinks(reg, base, content) && PutsStay(reg, base, effects)
    ensures Reaches(reg, content, EffectPuts(effects), ApplyPuts(content, effects))
    decreases |effects|
  {
    if effects != [] {
      var e := effects[0];
      assert e in effects;
      if e.PutEffect? {
        var k := Key(e.entity, e.item[Id]);
        PutInPlace(reg, base, content, k, e.item);
        PutsReach(reg, base, content[k := e.item], effects[1..]);
        assert EffectPuts(effects)[1..] == EffectPuts(effects[1..]);
      } else {
        PutsReach(reg, base, content, effects[1..]);
      }
    }
  }

  /** The one removal of a deletion names every stored item it takes where it is stored. */
  lemma RemovalRespects(reg: Registry, content: Content, cascade: seq<Target>, keys: set<Key>, effects: seq<Effect>)
    requires reg.Valid() && Keyed(reg, content) && Exact(reg, content, cascade, keys)
    requires EffectsPlain(reg, content, effects) && forall e :: e in effects ==> reg.Has(e.entity)
    ensures var call := RemoveOp(cascade + EffectTargets(effects));
      && Respects(reg, content, call) && OnContent(content, call) == content - (keys + EffectRemovals(effects))
  {
    var all := cascade + EffectTargets(effects);
    forall t | t in all ensures reg.Has(t.entity) {
      if t !in cascade { assert RemoveEffect(t.entity, t.ref) in effects; }
    }
    forall t | t in all && KeyOf(t) in content
      ensures TargetAddress(reg, t) == AddressOf(reg, KeyOf(t), content[KeyOf(t)]) {
      if t !in cascade { assert EffectPlain(reg, content, RemoveEffect(t.entity, t.ref)); }
    }
    EffectKeys(effects);
    assert KeysOf(all) == KeysOf(cascade) + KeysOf(EffectTargets(effects));
  }

  lemma AddressesJoin(reg: Registry, a: seq<Target>, b: seq<Target>)
    requires forall t :: t in a + b ==> reg.Has(t.entity)
    ensures (forall t :: t in a ==> reg.Has(t.entity)) && (forall t :: t in b ==> reg.Has(t.entity))
    ensures Addresses(reg, a + b) == Addresses(reg, a) + Addresses(reg, b)
  {
    assert forall t :: t in a || t in b ==> t in a + b;
  }

  lemma EachOnceJoin<T>(a: seq<T>, b: seq<T>)
    ensures EachOnce(a + b) <==> EachOnce(a) && EachOnce(b) && forall x :: x in a ==> x !in b
  {
    var c := a + b;
    if EachOnce(c) {
      assert forall i :: 0 <= i < |a| ==> c[i] == a[i];
      assert forall i :: 0 <= i < |b| ==> c[|a| + i] == b[i];
    } else if EachOnce(a) && EachOnce(b) {
      var i, j :| 0 <= i < j < |c| && c[i] == c[j];
      assert c[i] in a && c[i] in b;
    }
  }

  /** An effect's target meets the cascade exactly when it names an item of the subtree. */
  lemma TargetMeetsCascade(reg: Registry, content: Content, cascade: seq<Target>, keys: set<Key>, t: Target)
    requires reg.Valid() && DistinctKeys(reg) && Keyed(reg, content) && Exact(reg, content, cascade, keys)
    requires reg.Has(t.entity) && EffectPlain(reg, content, RemoveEffect(t.entity, t.ref))
    ensures (forall u :: u in cascade ==> reg.Has(u.entity))
    ensures TargetAddress(reg, t) in Addresses(reg, cascade) <==> KeyOf(t) in keys
  {
    var at := Addresses(reg, cascade);
    if TargetAddress(reg, t) in at {
      var i :| 0 <= i < |cascade| && at[i] == TargetAddress(reg, t);
      var u := cascade[i];
      assert TargetAddress(reg, u) == AddressOf(reg, KeyOf(u), content[KeyOf(u)]);
      TargetHits(reg, content, t, KeyOf(u));
    }
    if KeyOf(t) in keys {
      var u :| u in cascade && KeyOf(u) == KeyOf(t);
      var i :| 0 <= i < |cascade| && cascade[i] == u;
      assert at[i] == TargetAddress(reg, t);
    }
  }

  /**
   * A deletion's one removal repeats no key exactly when its effects name
   * distinct items outside the subtree.
   */
  lemma DeletionNamesOnceIff(reg: Registry, snapshot: Snapshot, content: Content, k: Key, effects: seq<Effect>)
    requires reg.Valid() && DistinctKeys(reg) && Keyed(reg, content) && Shows(reg, snapshot, content) && k in content
    requires EffectsPlain(reg, content, effects) && forall e :: e in effects ==> reg.Has(e.entity)
    ensures var all := Cascade(reg, snapshot, k.entity, content[k]) + EffectTargets(effects);
      && (forall t :: t in all ==> reg.Has(t.entity))
      && (EachOnce(Addresses(reg, all)) <==> Apart(reg, content, k, effects))
  {
    var cascade, extra := Cascade(reg, snapshot, k.entity, content[k]), EffectTargets(effects);
    CascadeIsSubtree(reg, snapshot, content, k);
    ExactListsNeverRepeat(reg, content, cascade, Subtree(reg, content, k));
    RemovalRespects(reg, content, cascade, Subtree(reg, content, k), effects);
    AddressesJoin(reg, cascade, extra);
    EachOnceJoin(Addresses(reg, cascade), Addresses(reg, extra));
    forall t | t in extra ensures TargetAddress(reg, t) in Addresses(reg, cascade) <==>
      KeyOf(t) in Subtree(reg, content, k) {
      assert EffectPlain(reg, content, RemoveEffect(t.entity, t.ref));
      TargetMeetsCascade(reg, content, cascade, Subtree(reg, content, k), t);
    }
    MeetsSome(reg, cascade, extra);
  }

  lemma MeetsSome(reg: Registry, a: seq<Target>, b: seq<Target>)
    requires (forall t :: t in a ==> reg.Has(t.entity)) && (forall t :: t in b ==> reg.Has(t.entity))
    ensures (forall x :: x in Addresses(reg, a) ==> x !in Addresses(reg, b)) <==>
            forall t :: t in b ==> TargetAddress(reg, t) !in Addresses(reg, a)
  {
    forall t | t in b ensures TargetAddress(reg, t) in Addresses(reg, b) {
      var i :| 0 <= i < |b| && b[i] == t;
      assert Addresses(reg, b)[i] == TargetAddress(reg, t);
    }
    forall x | x in Addresses(reg, b) ensures exists t :: t in b && TargetAddress(reg, t) == x {
      var i :| 0 <= i < |b| && Addresses(reg, b)[i] == x;
      assert b[i] in b && TargetAddress(reg, b[i]) == x;
    }
  }

  /**
   * On a table without faults a deletion goes through exactly when no batch of
   * its removals repeats a key; it does when its effects name distinct items
   * outside the subtree, and for a deletion of one batch only then.
   */
  lemma DeletionServedIff(reg: Registry, rows: Rows, snapshot: Snapshot, content: Content, k: Key, effects: seq<Effect>)
    requires reg.Valid() && DistinctKeys(reg) && Keyed(reg, content) && Shows(reg, snapshot, content) && k in content
    requires EffectsPlain(reg, content, effects) && PutsHaveIds(effects)
    requires forall e :: e in effects ==> reg.Has(e.entity)
    ensures var all := Cascade(reg, snapshot, k.entity, content[k]) + EffectTargets(effects);
      var through := TableAfter(reg, rows, [RemoveOp(all)] + EffectPuts(effects)).Some?;
      && (forall t :: t in all ==> reg.Has(t.entity))
      && (through <==> BatchesDistinct(reg, all))
      && (Apart(reg, content, k, effects) ==> through)
      && (through && |all| <= BATCH ==> Apart(reg, content, k, effects))
  {
    var all := Cascade(reg, snapshot, k.entity, content[k]) + EffectTargets(effects);
    DeletionNamesOnceIff(reg, snapshot, content, k, effects);
    DistinctBatches(reg, all);
    EffectPutsAre(effects);
    OneRemovalServedIff(reg, rows, all, EffectPuts(effects));
  }

  lemma OneRemovalServedIff(reg: Registry, rows: Rows, all: seq<Target>, puts: seq<StoreOp>)
    requires (forall t :: t in all ==> reg.Has(t.entity)) && forall c :: c in puts ==> c.PutOp? && Resolved(reg, c)
    ensures TableAfter(reg, rows, [RemoveOp(all)] + puts).Some? <==> BatchesDistinct(reg, all)
  {
    var calls := [RemoveOp(all)] + puts;
    ServedAll(reg, rows, calls);
    assert calls[0] == RemoveOp(all) && forall c :: c in calls <==> c == calls[0] || c in puts;
  }

  lemma EffectsStay(reg: Registry, content: Content, root: Key, effects: seq<Effect>)
    requires reg.Valid() && Keyed(reg, content) && EffectsSafe(reg, content, root, effects)
    requires EffectsPlain(reg, content, effects)
    ensures PutsStay(reg, content - Doomed(reg, content, root, effects), effects)
    ensures forall e :: e in effects ==> reg.Has(e.entity)
  {
    var doomed := Doomed(reg, content, root, effects);
    forall e | e in effects
      ensures reg.Has(e.entity)
      ensures e.PutEffect? ==>
        && Id in e.item && Plain(e.item) && Key(e.entity, e.item[Id]) in content - doomed
        && LinkText(reg.Def(e.entity), content[Key(e.entity, e.item[Id])]) == LinkText(reg.Def(e.entity), e.item)
    {
      assert EffectSafe(reg, content, doomed, e) && EffectPlain(reg, content, e);
    }
  }

  /** A deletion's calls lead to the content its specification gives. */
  lemma DeletionReaches(reg: Registry, snapshot: Snapshot, content: Content, k: Key, effects: seq<Effect>)
    requires reg.Valid() && Keyed(reg, content) && Shows(reg, snapshot, content) && k in content
    requires EffectsSafe(reg, content, k, effects) && EffectsPlain(reg, content, effects)
    ensures Reaches(reg, content, [RemoveOp(Cascade(reg, snapshot, k.entity, content[k]) + EffectTargets(effects))]
            + EffectPuts(effects),
                    ApplyPuts(content - Doomed(reg, content, k, effects), effects))
  {
    var cascade := Cascade(reg, snapshot, k.entity, content[k]);
    var call := RemoveOp(cascade + EffectTargets(effects));
    var rest := content - Doomed(reg, content, k, effects);
    CascadeIsSubtree(reg, snapshot, content, k);
    EffectsStay(reg, content, k, effects);
    RemovalRespects(reg, content, cascade, Subtree(reg, content, k), effects);
    PutsReach(reg, rest, rest, effects);
    assert ([call] + EffectPuts(effects))[1..] == EffectPuts(effects);
  }

  lemma StoredEffectsPlain(reg: Registry, content: Content, name: string, id: string, author: string, clock: Clock)
    requires reg.Valid() && HooksPlain(reg) && Sound(reg, content) && reg.Has(name) && Key(name, id) in content
    requires ParentOf(reg, content, name, LinkOf(reg.Def(name), content[Key(name, id)])).Ok?
    ensures EffectsPlain(reg, content, EffectsOf(reg, content, name, content[Key(name, id)], author, clock))
  {
    var existing := content[Key(name, id)];
    var ctx :=
      Ctx(content, author, clock.now, Some(existing),
        ParentOf(reg, content, name, LinkOf(reg.Def(name), existing)).value);
    assert EffectsPlain(reg, ctx.index, reg.byName[name].onDelete(existing, ctx));
  }

  lemma RemovalReaches(reg: Registry, snapshot: Snapshot, content: Content, name: string, ref: Ref, author: string,
          clock: Clock)
    requires reg.Valid() && HooksSafe(reg) && HooksPlain(reg) && Sound(reg, content)
    requires Shows(reg, snapshot, content) && reg.Has(name)
    ensures Reaches(reg, content, RemovalCalls(reg, snapshot, content, name, ref, author, clock),
            RemoveItem(reg, content, name, ref, author, clock).0)
  {
    if reg.byName[name].fixedIds.None? && ReadyRemoval(reg, content, name, ref, author, clock).Ok? {
      RemoveProceeds(reg, content, name, ref, author, clock);
      StoredEffectsSafe(reg, content, name, ref.id, author, clock);
      StoredEffectsPlain(reg, content, name, ref.id, author, clock);
      DeletionReaches(reg, snapshot, content, Key(name, ref.id),
        ReadyRemoval(reg, content, name, ref, author, clock).value.effects);
    }
  }

  lemma DeletesReach(reg: Registry, snapshot: Snapshot, content: Content, op: Op)
    requires reg.Valid() && HooksSafe(reg) && HooksPlain(reg) && Sound(reg, content) && Shows(reg, snapshot, content)
    requires (op.Remove? || op.RemoveDraft?) && reg.Has(op.name)
    ensures Reaches(reg, content, Calls(reg, snapshot, content, op), Step(reg, content, op).0)
  {
    if op.Remove? {
      RemovalReaches(reg, snapshot, content, op.name, op.ref, op.author, op.clock);
    } else {
      DraftReaches(reg, snapshot, content, op);
    }
  }

  lemma ItemWritesReach(reg: Registry, snapshot: Snapshot, content: Content, op: Op)
    requires reg.Valid() && HooksSafe(reg) && HooksPlain(reg) && Sound(reg, content) && AllPlain(content)
    requires (op.Create? || op.Update?) && reg.Has(op.name) && Fresh(content, op)
    ensures Reaches(reg, content, Calls(reg, snapshot, content, op), Step(reg, content, op).0)
  {
    if op.Create? { CreateReaches(reg, content, op); } else { UpdateReaches(reg, content, op); }
  }

  lemma StatusWritesReach(reg: Registry, snapshot: Snapshot, content: Content, op: Op)
    requires reg.Valid() && Keyed(reg, content) && AllPlain(content)
             && (op.SetStatus? || (op.Publish? && reg.Has(op.name)))
    ensures Reaches(reg, content, Calls(reg, snapshot, content, op), Step(reg, content, op).0)
  {
    if op.SetStatus? {
      SetStatusReaches(reg, content, op.items, op.status, op.author, op.clock);
    } else {
      PublishReaches(reg, content, op);
    }
  }

  /** The calls of any write lead to the content the write specifies. */
  lemma CallsReach(reg: Registry, snapshot: Snapshot, content: Content, op: Op)
    requires reg.Valid() && HooksSafe(reg) && HooksPlain(reg) && Sound(reg, content) && AllPlain(content)
    requires Shows(reg, snapshot, content) && Fresh(content, op)
    ensures Reaches(reg, content, Calls(reg, snapshot, content, op), Step(reg, content, op).0)
  {
    if op.SetStatus? || (op.Publish? && reg.Has(op.name)) {
      StatusWritesReach(reg, snapshot, content, op);
    } else if (op.Create? || op.Update?) && reg.Has(op.name) {
      ItemWritesReach(reg, snapshot, content, op);
    } else if reg.Has(op.name) {
      DeletesReach(reg, snapshot, content, op);
    }
  }

  lemma DraftReaches(reg: Registry, snapshot: Snapshot, content: Content, op: Op)
    requires reg.Valid() && HooksSafe(reg) && HooksPlain(reg) && Sound(reg, content) && Shows(reg, snapshot, content)
    requires op.RemoveDraft? && reg.Has(op.name)
    ensures Reaches(reg, content, DraftCalls(reg, snapshot, content, op), RemoveDraftItem(reg, content, op).0)
  {
    var existing := LocateById(reg, content, op.name, op.id);
    if existing.Ok? && StatusOf(existing.value) == DRAFT {
      RemovalReaches(reg, snapshot, content, op.name, reg.Def(op.name).RefOf(existing.value), op.author, op.clock);
    }
  }

  lemma PublishReaches(reg: Registry, content: Content, op: Op)
    requires reg.Valid() && Keyed(reg, content) && AllPlain(content) && op.Publish? && reg.Has(op.name)
    ensures Reaches(reg, content, PublishCalls(reg, content, op), PublishItem(reg, content, op).0)
  {
    var items := PublishTargets(reg, content, op);
    if items.Ok? { SetStatusReaches(reg, content, items.value, PUBLISHED, op.author, op.clock); }
  }

  // No removal repeats a key -----------------------------------------------------------------------------------

  ghost predicate NamesOnce(reg: Registry, calls: seq<StoreOp>) {
    forall c :: c in calls && c.RemoveOp? ==> Resolved(reg, c) && EachOnce(Addresses(reg, c.targets))
  }

  lemma {:induction false} StatusCallsPut(found: Content, items: seq<Key>, status: string, author: string, clock: Clock)
    requires forall k :: k in items ==> k in found
    ensures forall c :: c in StatusCalls(found, items, status, author, clock) ==> c.PutOp?
  {
    if items != [] { StatusCallsPut(found, items[1..], status, author, clock); }
  }

  lemma SetStatusCallsPut(reg: Registry, content: Content, items: seq<Key>, status: string, author: string,
          clock: Clock)
    ensures forall c :: c in SetStatusCalls(reg, content, items, status, author, clock) ==> c.PutOp?
  {
    NoneUnknown(reg, content, items);
    if Unknown(reg, content, items).None? { StatusCallsPut(content, items, status, author, clock); }
  }

  lemma StoredEffectsApart(reg: Registry, content: Content, name: string, id: string, author: string, clock: Clock)
    requires reg.Valid() && HooksApart(reg) && Sound(reg, content) && reg.Has(name) && Key(name, id) in content
    requires ParentOf(reg, content, name, LinkOf(reg.Def(name), content[Key(name, id)])).Ok?
    ensures EffectsApart(reg, content, Key(name, id),
            EffectsOf(reg, content, name, content[Key(name, id)], author, clock))
  {
    var existing := content[Key(name, id)];
    var ctx :=
      Ctx(content, author, clock.now, Some(existing),
        ParentOf(reg, content, name, LinkOf(reg.Def(name), existing)).value);
    assert EffectsApart(reg, ctx.index, Key(name, existing[Id]), reg.byName[name].onDelete(existing, ctx));
  }

  lemma DeletionNamesOnce(reg: Registry, snapshot: Snapshot, content: Content, k: Key, effects: seq<Effect>)
    requires reg.Valid() && DistinctKeys(reg) && Keyed(reg, content) && Shows(reg, snapshot, content) && k in content
    requires EffectsSafe(reg, content, k, effects) && EffectsPlain(reg, content, effects)
             && EffectsApart(reg, content, k, effects)
    ensures NamesOnce(reg, [RemoveOp(Cascade(reg, snapshot, k.entity, content[k]) + EffectTargets(effects))]
            + EffectPuts(effects))
  {
    EffectsStay(reg, content, k, effects);
    DeletionNamesOnceIff(reg, snapshot, content, k, effects);
    EffectPutsAre(effects);
  }

  lemma RemovalNamesOnce(reg: Registry, snapshot: Snapshot, content: Content, name: string, ref: Ref, author: string,
          clock: Clock)
    requires reg.Valid() && DistinctKeys(reg) && HooksSafe(reg) && HooksPlain(reg) && HooksApart(reg)
    requires Sound(reg, content) && Shows(reg, snapshot, content) && reg.Has(name)
    ensures NamesOnce(reg, RemovalCalls(reg, snapshot, content, name, ref, author, clock))
  {
    if reg.byName[name].fixedIds.None? && ReadyRemoval(reg, content, name, ref, author, clock).Ok? {
      RemoveProceeds(reg, content, name, ref, author, clock);
      StoredEffectsSafe(reg, content, name, ref.id, author, clock);
      StoredEffectsPlain(reg, content, name, ref.id, author, clock);
      StoredEffectsApart(reg, content, name, ref.id, author, clock);
      DeletionNamesOnce(reg, snapshot, content, Key(name, ref.id),
        ReadyRemoval(reg, content, name, ref, author, clock).value.effects);
    }
  }

  lemma DraftNamesOnce(reg: Registry, snapshot: Snapshot, content: Content, op: Op)
    requires reg.Valid() && DistinctKeys(reg) && HooksSafe(reg) && HooksPlain(reg) && HooksApart(reg)
    requires Sound(reg, content) && Shows(reg, snapshot, content) && op.RemoveDraft? && reg.Has(op.name)
    ensures NamesOnce(reg, DraftCalls(reg, snapshot, content, op))
  {
    var existing := LocateById(reg, content, op.name, op.id);
    if existing.Ok? {
      RemovalNamesOnce(reg, snapshot, content, op.name, reg.Def(op.name).RefOf(existing.value), op.author, op.clock);
    }
  }

  lemma PublishCallsPut(reg: Registry, content: Content, op: Op)
    requires op.Publish? && reg.Has(op.name)
    ensures forall c :: c in PublishCalls(reg, content, op) ==> c.PutOp?
  {
    var items := PublishTargets(reg, content, op);
    if items.Ok? { SetStatusCallsPut(reg, content, items.value, PUBLISHED, op.author, op.clock); }
  }

  /** Writes other than deletions remove nothing. */
  lemma OthersOnlyPut(reg: Registry, snapshot: Snapshot, content: Content, op: Op)
    requires reg.Valid() && !op.Remove? && !op.RemoveDraft?
    ensures forall c :: c in Calls(reg, snapshot, content, op) ==> c.PutOp?
  {
    if op.SetStatus? {
      SetStatusCallsPut(reg, content, op.items, op.status, op.author, op.clock);
    } else if op.Publish? && reg.Has(op.name) {
      PublishCallsPut(reg, content, op);
    }
  }

  /** If deletion effects name distinct items outside the subtree, no removal of any write repeats a key. */
  lemma CallsNameOnce(reg: Registry, snapshot: Snapshot, content: Content, op: Op)
    requires reg.Valid() && DistinctKeys(reg) && HooksSafe(reg) && HooksPlain(reg) && HooksApart(reg)
    requires Sound(reg, content) && Shows(reg, snapshot, content)
    ensures NamesOnce(reg, Calls(reg, snapshot, content, op))
  {
    if !op.Remove? && !op.RemoveDraft? {
      OthersOnlyPut(reg, snapshot, content, op);
    } else if reg.Has(op.name) {
      DeletionCallsNameOnce(reg, snapshot, content, op);
    }
  }

  lemma DeletionCallsNameOnce(reg: Registry, snapshot: Snapshot, content: Content, op: Op)
    requires reg.Valid() && DistinctKeys(reg) && HooksSafe(reg) && HooksPlain(reg) && HooksApart(reg)
    requires Sound(reg, content) && Shows(reg, snapshot, content) && (op.Remove? || op.RemoveDraft?) && reg.Has(op.name)
    ensures NamesOnce(reg, Calls(reg, snapshot, content, op))
  {
    if op.Remove? {
      RemovalNamesOnce(reg, snapshot, content, op.name, op.ref, op.author, op.clock);
    } else {
      DraftNamesOnce(reg, snapshot, content, op);
    }
  }

  // Whole runs ------------------------------------------------------------------------------------------------

  lemma {:induction false} ReachedAreResolved(reg: Registry, content: Content, calls: seq<StoreOp>, after: Content)
    requires Reaches(reg, content, calls, after)
    ensures forall c :: c in calls ==> Resolved(reg, c)
    decreases |calls|
  {
    if calls != [] { ReachedAreResolved(reg, OnContent(content, calls[0]), calls[1..], after); }
  }

  /** One write, made on a table that represents the content: the table serves it, and represents its outcome. */
  lemma WriteOnTable(reg: Registry, snapshot: Snapshot, content: Content, op: Op, rows: Rows)
    requires reg.Valid() && DistinctKeys(reg) && HooksSafe(reg) && HooksPlain(reg) && HooksApart(reg)
    requires Sound(reg, content) && Shows(reg, snapshot, content) && Fresh(content, op)
             && Represents(reg, rows, content)
    ensures var after := TableAfter(reg, rows, Calls(reg, snapshot, content, op));
      after.Some? && Represents(reg, after.value, Step(reg, content, op).0)
  {
    var calls := Calls(reg, snapshot, content, op);
    CallsReach(reg, snapshot, content, op);
    CallsNameOnce(reg, snapshot, content, op);
    AllServed(reg, rows, content, calls, Step(reg, content, op).0);
  }

  lemma AllServed(reg: Registry, rows: Rows, content: Content, calls: seq<StoreOp>, after: Content)
    requires DistinctKeys(reg) && Represents(reg, rows, content) && Reaches(reg, content, calls, after)
             && NamesOnce(reg, calls)
    ensures TableAfter(reg, rows, calls).Some? && Represents(reg, TableAfter(reg, rows, calls).value, after)
  {
    ReachedAreResolved(reg, content, calls, after);
    forall c | c in calls ensures Served(reg, c) {
      if c.RemoveOp? { DistinctBatches(reg, c.targets); }
    }
    ServedAll(reg, rows, calls);
    ReachesOnRows(reg, rows, content, calls, after);
  }

  /**
   * A run of the service on a table without faults: each write reads a snapshot,
   * and its calls change the rows if all are served.
   */
  ghost predicate IsTableRun(reg: Registry, contents: seq<Content>, ops: seq<Op>, snapshots: seq<Snapshot>,
          rows: seq<Rows>)
    requires reg.Valid()
  {
    && IsRun(reg, contents, ops) && |rows| == |contents| && |snapshots| == |ops|
    && (forall i :: 0 <= i < |ops| ==>
          && Shows(reg, snapshots[i], contents[i])
          && rows[i + 1] == TableAfter(reg, rows[i], Calls(reg, snapshots[i], contents[i], ops[i])).GetOr(rows[i]))
  }

  /**
   * Over every run of the service from an empty table, foreign rows allowed, the
   * rows represent the content the same run reaches on the simple store: the
   * single table is as good as the map of maps.
   */
  lemma {:induction false} TableRunsRepresent(reg: Registry, contents: seq<Content>, ops: seq<Op>,
          snapshots: seq<Snapshot>, rows: seq<Rows>, n: nat)
    requires reg.Valid() && DistinctKeys(reg) && HooksSafe(reg) && HooksPlain(reg) && HooksApart(reg)
    requires IsTableRun(reg, contents, ops, snapshots, rows) && contents[0] == map[]
    requires Represents(reg, rows[0], map[]) && n < |contents|
    ensures Represents(reg, rows[n], contents[n])
  {
    if n != 0 {
      TableRunsRepresent(reg, contents, ops, snapshots, rows, n - 1);
      RunsStaySound(reg, contents, ops, n - 1);
      WriteOnTable(reg, snapshots[n - 1], contents[n - 1], ops[n - 1], rows[n - 1]);
    }
  }

  /** No write of such a run is refused by the table. */
  lemma TableServesEveryWrite(reg: Registry, contents: seq<Content>, ops: seq<Op>, snapshots: seq<Snapshot>,
          rows: seq<Rows>, n: nat)
    requires reg.Valid() && DistinctKeys(reg) && HooksSafe(reg) && HooksPlain(reg) && HooksApart(reg)
    requires IsTableRun(reg, contents, ops, snapshots, rows) && contents[0] == map[]
    requires Represents(reg, rows[0], map[]) && n < |ops|
    ensures TableAfter(reg, rows[n], Calls(reg, snapshots[n], contents[n], ops[n])) == Some(rows[n + 1])
  {
    TableRunsRepresent(reg, contents, ops, snapshots, rows, n);
    RunsStaySound(reg, contents, ops, n);
    WriteOnTable(reg, snapshots[n], contents[n], ops[n], rows[n]);
  }
}
