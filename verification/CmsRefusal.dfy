/**
 * A deletion the simple store makes and the table refuses: its effect names an
 * item that the cascade removes anyway, so one batch carries a key twice.
 */
module CmsRefusal {
  import opened Prelude
  import opened CmsModel
  import opened CmsWrites
  import opened CmsIntegrity
  import opened CmsCascade
  import opened CmsAddresses
  import opened CmsTable
  import opened CmsDynamoStore
  import opened CmsCalls
  import opened CmsOnTable

  const LINK := Named("topicId")
  const TOPIC_DEF := EntityDef("topic", "topics", "TOPIC", None)
  const REF_DEF := EntityDef("ref", "refs", "REF", Some(ParentDef("topic", "TOPIC", LINK)))
  const T := Key("topic", "t")
  const R := Key("ref", "r")

  function NoFields(input: Item, ctx: Ctx): Result<Patch, CmsError> {
    Ok(map[])
  }

  function NoEffects(item: Item, ctx: Ctx): seq<Effect> {
    []
  }

  /** Deleting a topic also removes the reference `r`, wherever it hangs. */
  function RemovesR(item: Item, ctx: Ctx): seq<Effect> {
    if R in ctx.index && Get(ctx.index[R], Id) == Some(R.id) then [RemoveEffect("ref", REF_DEF.RefOf(ctx.index[R]))]
      else []
  }

  // The types ------------------------------------------------------------------------------------

  /** Topics, and references that hang off them. */
  ghost predicate Types(reg: Registry) {
    && |reg.specs| == 2 && reg.byName == map["topic" := reg.specs[0], "ref" := reg.specs[1]]
    && reg.specs[0].def == TOPIC_DEF && reg.specs[1].def == REF_DEF
    && reg.depth == map["topic" := 0, "ref" := 1] && reg.height == 1
  }

  ghost predicate Hooks(reg: Registry) {
    && (forall n :: n in reg.byName ==> reg.byName[n].makeId.None? && reg.byName[n].fixedIds.None?)
    && (forall n, input, ctx :: n in reg.byName ==> reg.byName[n].fields(input, ctx) == Ok(map[]))
    && (forall item, ctx :: reg.Has("topic") ==> reg.byName["topic"].onDelete(item, ctx) == RemovesR(item, ctx))
    && (forall item, ctx :: reg.Has("ref") ==> reg.byName["ref"].onDelete(item, ctx) == [])
  }

  lemma ExampleTypes() returns (reg: Registry)
    ensures Types(reg) && Hooks(reg)
  {
    var topic := EntitySpec(TOPIC_DEF, NoFields, None, None, None, RemovesR, None);
    var ref := EntitySpec(REF_DEF, NoFields, None, None, None, NoEffects, None);
    reg := Registry([topic, ref], map["topic" := topic, "ref" := ref], map["topic" := 0, "ref" := 1], 1);
    assert |"topic"| == 5 && |"ref"| == 3;
    assert reg.byName["topic"] == topic && reg.byName["ref"] == ref;
  }

  lemma NamesDiffer(reg: Registry, n: string)
    requires Types(reg) && n in reg.byName
    ensures n == "topic" || n == "ref"
    ensures reg.byName["topic"] == reg.specs[0] && reg.byName["ref"] == reg.specs[1] && "topic" in reg.byName
            && "ref" in reg.byName
  {
    assert |"topic"| == 5 && |"ref"| == 3;
  }

  /** What an effect of the example's hooks can be. */
  lemma OnlyRemovesR(reg: Registry, n: string, item: Item, ctx: Ctx, e: Effect)
    requires Types(reg) && Hooks(reg) && n in reg.byName && e in reg.byName[n].onDelete(item, ctx)
    ensures R in ctx.index && Get(ctx.index[R], Id) == Some(R.id)
            && e == RemoveEffect("ref", REF_DEF.RefOf(ctx.index[R]))
  {
    NamesDiffer(reg, n);
    assert reg.byName["topic"].onDelete(item, ctx) == RemovesR(item, ctx);
    assert reg.byName["ref"].onDelete(item, ctx) == [];
  }

  lemma TypesAreChecked(reg: Registry)
    requires Types(reg)
    ensures reg.Checked()
  {
    forall n | n in reg.byName { NamesDiffer(reg, n); }
    assert reg.specs[0].def.name == "topic" && reg.specs[1].def.name == "ref";
  }

  lemma TypesAreAcyclic(reg: Registry)
    requires Types(reg)
    ensures reg.Acyclic() && reg.LinksNamed()
  {
    forall n | n in reg.byName { NamesDiffer(reg, n); }
  }

  lemma KeysAreDistinct(reg: Registry)
    requires Types(reg)
    ensures DistinctKeys(reg)
  {
    forall n | n in reg.byName { NamesDiffer(reg, n); }
    assert |"TOPIC"| == 5 && |"REF"| == 3;
  }

  lemma RefsAreChildless(reg: Registry)
    requires Types(reg)
    ensures reg.Has("ref") && Childless(reg, "ref")
  {
    forall n | n in reg.byName { NamesDiffer(reg, n); }
    assert |"topic"| == 5 && |"ref"| == 3;
  }

  lemma HooksAreSafe(reg: Registry)
    requires reg.Valid() && Types(reg) && Hooks(reg)
    ensures HooksSafe(reg)
  {
    RefsAreChildless(reg);
    forall n: string, item: Item, ctx: Ctx | n in reg.byName && Id in item
      ensures EffectsSafe(reg, ctx.index, Key(n, item[Id]), reg.byName[n].onDelete(item, ctx))
    {
      forall e | e in reg.byName[n].onDelete(item, ctx) { OnlyRemovesR(reg, n, item, ctx, e); }
    }
  }

  lemma HooksArePlain(reg: Registry)
    requires Types(reg) && Hooks(reg)
    ensures HooksPlain(reg)
  {
    forall n: string, item: Item, ctx: Ctx | n in reg.byName
      ensures EffectsPlain(reg, ctx.index, reg.byName[n].onDelete(item, ctx))
    {
      forall e | e in reg.byName[n].onDelete(item, ctx) ensures EffectPlain(reg, ctx.index, e) {
        OnlyRemovesR(reg, n, item, ctx, e);
        NamesDiffer(reg, n);
      }
    }
  }

  // The content ------------------------------------------------------------------------------------

  /** One draft topic `t`, and its draft reference `r`. */
  ghost predicate Holds(content: Content, topic: Item, ref: Item) {
    && content == map[T := topic, R := ref]
    && topic == map[Id := "t", CreatedAt := "2024", Status := DRAFT]
    && ref == map[Id := "r", LINK := "t", CreatedAt := "2024", Status := DRAFT]
  }

  lemma ContentIsKeyed(reg: Registry, content: Content, topic: Item, ref: Item)
    requires Types(reg) && Holds(content, topic, ref)
    ensures Keyed(reg, content) && AllPlain(content)
  {
  }

  lemma ContentIsSound(reg: Registry, content: Content, topic: Item, ref: Item)
    requires Types(reg) && Holds(content, topic, ref) && Keyed(reg, content)
    ensures Sound(reg, content)
  {
    NamesDiffer(reg, "topic");
    assert ParentKey(reg, "ref", ref) == Some(T);
    forall k | k in content ensures HasParent(reg, content, k.entity, content[k]) { assert k == T || k == R; }
    forall k | k in content
      ensures CreatedAt in content[k] && StatusOf(content[k]) != PUBLISHED
    {
      assert k == T || k == R;
    }
  }

  lemma SnapshotShows(reg: Registry, content: Content, topic: Item, ref: Item, snapshot: Snapshot)
    requires Types(reg) && Holds(content, topic, ref) && snapshot == map["topics" := [topic], "refs" := [ref]]
    ensures Shows(reg, snapshot, content)
  {
    forall n | n in reg.byName ensures Lists(All(reg, snapshot, n), content, n) {
      assert All(reg, snapshot, n) == if n == "topic" then [topic] else [ref];
      assert topic in [topic] && ref in [ref];
    }
  }

  lemma RefHangsOffTopic(reg: Registry, content: Content, topic: Item, ref: Item)
    requires Types(reg) && reg.Valid() && Keyed(reg, content) && Holds(content, topic, ref)
    ensures Subtree(reg, content, T) == content.Keys == {T, R}
  {
    assert ParentKey(reg, "ref", content[R]) == Some(T);
    assert Under(reg, content, T, T) && Under(reg, content, R, T);
  }

  lemma DeletionIsReady(reg: Registry, content: Content, topic: Item, ref: Item, author: string, clock: Clock)
    requires Types(reg) && Hooks(reg) && Holds(content, topic, ref)
    ensures ReadyRemoval(reg, content, "topic", Ref("t", None), author, clock)
            == Ok(Readied(topic, [RemoveEffect("ref", Ref("r", Some("t")))]))
  {
    NamesDiffer(reg, "topic");
    var ctx := Ctx(content, author, clock.now, Some(topic), None);
    assert reg.byName["topic"].onDelete(topic, ctx) == RemovesR(topic, ctx);
  }

  // The deletion -------------------------------------------------------------------------------------

  lemma {:induction false} DistinctLength(ts: seq<Target>)
    requires Distinct(ts)
    ensures |ts| == |KeysOf(ts)|
  {
    if ts != [] {
      var rest := ts[1..];
      DistinctLength(rest);
      assert forall i :: 0 <= i < |rest| ==> rest[i] == ts[i + 1];
      assert KeysOf(ts) == {KeyOf(ts[0])} + KeysOf(rest);
    }
  }

  /** A deletion whose effects name an item of its subtree is refused, if all it removes fits in one batch. */
  lemma TwiceIsRefused(reg: Registry, rows: Rows, snapshot: Snapshot, content: Content, k: Key, effects: seq<Effect>,
          t: Target)
    requires reg.Valid() && DistinctKeys(reg) && Keyed(reg, content) && Shows(reg, snapshot, content) && k in content
    requires EffectsPlain(reg, content, effects) && PutsHaveIds(effects)
    requires forall e :: e in effects ==> reg.Has(e.entity)
    requires RemoveEffect(t.entity, t.ref) in effects && KeyOf(t) in Subtree(reg, content, k)
    requires |Subtree(reg, content, k)| + |EffectTargets(effects)| <= BATCH
    ensures TableAfter(reg, rows, [RemoveOp(Cascade(reg, snapshot, k.entity, content[k]) + EffectTargets(effects))]
            + EffectPuts(effects)) == None
  {
    CascadeIsSubtree(reg, snapshot, content, k);
    DistinctLength(Cascade(reg, snapshot, k.entity, content[k]));
    DeletionServedIff(reg, rows, snapshot, content, k, effects);
  }

  lemma SimpleDeletion(reg: Registry, content: Content, topic: Item, effects: seq<Effect>, author: string, clock: Clock)
    requires reg.Valid() && Keyed(reg, content) && reg.Has("topic") && Subtree(reg, content, T) == content.Keys
    requires reg.Def("topic").parent.None? && reg.byName["topic"].fixedIds.None?
    requires ReadyRemoval(reg, content, "topic", Ref("t", None), author, clock) == Ok(Readied(topic, effects))
    requires forall e :: e in effects ==> e.RemoveEffect?
    ensures RemoveItem(reg, content, "topic", Ref("t", None), author, clock) == (map[], Ok(Removed(None)))
  {
    assert content - Doomed(reg, content, T, effects) == map[];
    NothingPut(map[], effects);
  }

  lemma {:induction false} NothingPut(content: Content, effects: seq<Effect>)
    requires forall e :: e in effects ==> e.RemoveEffect?
    ensures ApplyPuts(content, effects) == content
    decreases |effects|
  {
    if effects != [] {
      assert effects[0] in effects;
      NothingPut(content, effects[1..]);
    }
  }

  /** The example, with all that the table's main result asks of types, hooks and content but `HooksApart`. */
  lemma Example() returns (reg: Registry, snapshot: Snapshot, content: Content, topic: Item, ref: Item)
    ensures reg.Valid() && DistinctKeys(reg) && HooksSafe(reg) && HooksPlain(reg) && Types(reg) && Hooks(reg)
    ensures Sound(reg, content) && AllPlain(content) && Shows(reg, snapshot, content) && Holds(content, topic, ref)
  {
    reg := ExampleTypes();
    TypesAreChecked(reg);
    TypesAreAcyclic(reg);
    KeysAreDistinct(reg);
    HooksAreSafe(reg);
    HooksArePlain(reg);
    topic, ref := map[Id := "t", CreatedAt := "2024", Status := DRAFT],
      map[Id := "r", LINK := "t", CreatedAt := "2024", Status := DRAFT];
    content, snapshot := map[T := topic, R := ref], map["topics" := [topic], "refs" := [ref]];
    ContentIsKeyed(reg, content, topic, ref);
    ContentIsSound(reg, content, topic, ref);
    SnapshotShows(reg, content, topic, ref, snapshot);
  }

  /**
   * The failing input: removing the topic. The simple store deletes both items;
   * the table, without any fault, refuses the one batch, which names `r` twice.
   */
  lemma RefusedDeletion(rows: Rows, author: string, clock: Clock)
    returns (reg: Registry, snapshot: Snapshot, content: Content)
    ensures reg.Valid() && DistinctKeys(reg) && HooksSafe(reg) && HooksPlain(reg)
    ensures Sound(reg, content) && AllPlain(content) && Shows(reg, snapshot, content)
    ensures var op := Op.Remove("topic", Ref("t", None), author, clock);
      && Step(reg, content, op) == (map[], Ok(Removed(None)))
      && TableAfter(reg, rows, Calls(reg, snapshot, content, op)) == None
  {
    var topic, ref;
    reg, snapshot, content, topic, ref := Example();
    ExampleRefused(reg, snapshot, content, topic, ref, rows, author, clock);
  }

  lemma ExampleDeletes(reg: Registry, content: Content, topic: Item, ref: Item, author: string, clock: Clock)
    requires reg.Valid() && Types(reg) && Hooks(reg) && Keyed(reg, content) && Holds(content, topic, ref)
    ensures ReadyRemoval(reg, content, "topic", Ref("t", None), author, clock)
            == Ok(Readied(topic, [RemoveEffect("ref", Ref("r", Some("t")))]))
    ensures Step(reg, content, Op.Remove("topic", Ref("t", None), author, clock)) == (map[], Ok(Removed(None)))
  {
    DeletionIsReady(reg, content, topic, ref, author, clock);
    RefHangsOffTopic(reg, content, topic, ref);
    SimpleDeletion(reg, content, topic, [RemoveEffect("ref", Ref("r", Some("t")))], author, clock);
  }

  lemma OneEffect(reg: Registry, content: Content, topic: Item, ref: Item, effects: seq<Effect>)
    requires Types(reg) && reg.Has("ref") && Holds(content, topic, ref)
    requires effects == [RemoveEffect("ref", Ref("r", Some("t")))]
    ensures EffectsPlain(reg, content, effects) && PutsHaveIds(effects)
    ensures |EffectTargets(effects)| == 1 && forall e :: e in effects ==> reg.Has(e.entity)
  {
    NamesDiffer(reg, "ref");
    assert effects[1..] == [];
  }

  /** An item with one child, which the one removal among its effects names. */
  lemma OnlyChildTwice(reg: Registry, rows: Rows, snapshot: Snapshot, content: Content, k: Key, effects: seq<Effect>,
          t: Target)
    requires reg.Valid() && DistinctKeys(reg) && Keyed(reg, content) && Shows(reg, snapshot, content)
    requires k in content && Subtree(reg, content, k) == {k, KeyOf(t)} && k != KeyOf(t)
    requires EffectsPlain(reg, content, effects) && PutsHaveIds(effects) && |EffectTargets(effects)| == 1
    requires forall e :: e in effects ==> reg.Has(e.entity)
    requires RemoveEffect(t.entity, t.ref) in effects
    ensures TableAfter(reg, rows, [RemoveOp(Cascade(reg, snapshot, k.entity, content[k]) + EffectTargets(effects))]
            + EffectPuts(effects)) == None
  {
    assert |Subtree(reg, content, k)| == 2;
    TwiceIsRefused(reg, rows, snapshot, content, k, effects, t);
  }

  lemma RemovalCallsAre(reg: Registry, snapshot: Snapshot, content: Content, op: Op, existing: Item,
          effects: seq<Effect>)
    requires reg.Valid() && op.Remove? && reg.Has(op.name) && reg.byName[op.name].fixedIds.None?
    requires ReadyRemoval(reg, content, op.name, op.ref, op.author, op.clock) == Ok(Readied(existing, effects))
    ensures Calls(reg, snapshot, content, op)
            == [RemoveOp(Cascade(reg, snapshot, op.name, existing) + EffectTargets(effects))] + EffectPuts(effects)
  {
  }

  lemma ExampleRefused(reg: Registry, snapshot: Snapshot, content: Content, topic: Item, ref: Item, rows: Rows,
          author: string, clock: Clock)
    requires reg.Valid() && DistinctKeys(reg) && HooksPlain(reg) && Types(reg) && Hooks(reg)
    requires Keyed(reg, content) && Shows(reg, snapshot, content) && Holds(content, topic, ref)
    ensures var op := Op.Remove("topic", Ref("t", None), author, clock);
      && Step(reg, content, op) == (map[], Ok(Removed(None)))
      && TableAfter(reg, rows, Calls(reg, snapshot, content, op)) == None
  {
    var effects, op := [RemoveEffect("ref", Ref("r", Some("t")))], Op.Remove("topic", Ref("t", None), author, clock);
    ExampleDeletes(reg, content, topic, ref, author, clock);
    RefHangsOffTopic(reg, content, topic, ref);
    NamesDiffer(reg, "topic");
    RemovalCallsAre(reg, snapshot, content, op, topic, effects);
    OneEffect(reg, content, topic, ref, effects);
    OnlyChildTwice(reg, rows, snapshot, content, T, effects, Target("ref", Ref("r", Some("t"))));
  }
}
