/** Single-table keys: each stored item has an address of its own, and each owned sort key one owner. */
module CmsAddresses {
  import opened Prelude
  import opened CmsModel
  import opened CmsCascade

  /** Partition key and sort key. */
  type Address = (string, string)

  /** A table's rows by address. */
  type Rows = map<Address, Item>

  predicate HashFree(s: string) {
    forall i :: 0 <= i < |s| ==> s[i] != '#'
  }

  /** Key tokens are distinct and '#'-free, and children are filed under their parent's token. */
  ghost predicate DistinctKeys(reg: Registry) {
    && (forall n :: n in reg.byName ==> HashFree(reg.Def(n).key))
    && (forall a, b :: a in reg.byName && b in reg.byName && a != b ==> reg.Def(a).key != reg.Def(b).key)
    && (forall n :: n in reg.byName && reg.Def(n).parent.Some? && reg.Def(n).parent.value.name in reg.byName ==>
          reg.Def(n).parent.value.key == reg.Def(reg.Def(n).parent.value.name).key)
  }

  lemma TokensEnd(a: string, x: string, b: string, y: string)
    requires HashFree(a) && HashFree(b)
    ensures a + "#" + x == b + "#" + y ==> a == b && x == y
    ensures b != a + "#" + x
  {
    var s, t := a + "#" + x, b + "#" + y;
    assert s[|a|] == '#' && t[|b|] == '#';
    assert |a| < |b| ==> t[|a|] == b[|a|];
    assert |b| < |a| ==> s[|b|] == a[|b|];
    if s == t {
      assert a == s[..|a|] && b == t[..|b|] && x == s[|a| + 1..] && y == t[|b| + 1..];
    }
  }

  function AddressOf(reg: Registry, k: Key, item: Item): Address
    requires reg.Has(k.entity)
  {
    reg.Def(k.entity).Address(reg.Def(k.entity).RefOf(item))
  }

  /** The parent link as an address spells it; items of root types have none. */
  function LinkText(def: EntityDef, item: Item): string {
    if def.parent.None? then "" else def.RefOf(item).parentId.GetOr("undefined")
  }

  /** A sort key has at most one owner. */
  lemma OneOwner(reg: Registry, n: string, m: string, sk: string)
    requires DistinctKeys(reg) && reg.Has(n) && reg.Has(m) && reg.Def(n).Owns(sk) && reg.Def(m).Owns(sk)
    ensures n == m
  {
    var a, b := reg.Def(n), reg.Def(m);
    if a.parent.Some? { TokensEnd(a.key, sk[|a.key| + 1..], b.key, if b.parent.Some? then sk[|b.key| + 1..] else ""); }
    if b.parent.Some? { TokensEnd(b.key, sk[|b.key| + 1..], a.key, ""); }
  }

  lemma OwnsItsRows(reg: Registry, k: Key, item: Item)
    requires reg.Has(k.entity)
    ensures reg.Def(k.entity).Owns(AddressOf(reg, k, item).1)
  {
  }

  /** Two items share an address exactly when they are the same item under the same parent. */
  lemma AddressesInjective(reg: Registry, a: Key, x: Item, b: Key, y: Item)
    requires DistinctKeys(reg) && reg.Has(a.entity) && reg.Has(b.entity) && Get(x, Id) == Some(a.id)
    requires Get(y, Id) == Some(b.id)
    ensures AddressOf(reg, a, x) == AddressOf(reg, b, y) <==>
            a == b && LinkText(reg.Def(a.entity), x) == LinkText(reg.Def(b.entity), y)
  {
    if AddressOf(reg, a, x) == AddressOf(reg, b, y) {
      OwnsItsRows(reg, a, x);
      OwnsItsRows(reg, b, y);
      OneOwner(reg, a.entity, b.entity, AddressOf(reg, a, x).1);
      var d := reg.Def(a.entity);
      TokensEnd(d.key, a.id, d.key, b.id);
      if d.parent.Some? { SameParentToken(d.parent.value.key, LinkText(d, x), LinkText(d, y)); }
    }
  }

  lemma SameParentToken(key: string, x: string, y: string)
    requires key + "#" + x == key + "#" + y
    ensures x == y
  {
    assert x == (key + "#" + x)[|key| + 1..];
    assert y == (key + "#" + y)[|key| + 1..];
  }

  /**
   * The standard layout: a root lies at its token and id, under its token; a child
   * at its parent's token and id, under its own token and id.
   */
  lemma AddressIs(reg: Registry, k: Key, item: Item)
    requires reg.Valid() && DistinctKeys(reg) && reg.Has(k.entity) && Get(item, Id) == Some(k.id)
    ensures var def, at := reg.Def(k.entity), AddressOf(reg, k, item);
      && (def.parent.None? ==> at == (def.key + "#" + k.id, def.key))
      && (def.parent.Some? && def.parent.value.field in item ==>
            at == (reg.Def(def.parent.value.name).key + "#" + item[def.parent.value.field], def.key + "#" + k.id))
  {
  }

  /** A root and its children share a partition, and no two of them a sort key. */
  lemma ChildrenShareAPartition(reg: Registry, k: Key, item: Item, p: Key, parent: Item)
    requires reg.Valid() && DistinctKeys(reg) && reg.Has(k.entity) && reg.Has(p.entity)
    requires Get(item, Id) == Some(k.id) && Get(parent, Id) == Some(p.id)
    requires ParentKey(reg, k.entity, item) == Some(p) && reg.Def(p.entity).parent.None?
    ensures AddressOf(reg, k, item).0 == AddressOf(reg, p, parent).0
    ensures AddressOf(reg, k, item).1 != AddressOf(reg, p, parent).1
  {
    AddressIs(reg, k, item);
    AddressIs(reg, p, parent);
    TokensEnd(reg.Def(k.entity).key, k.id, reg.Def(p.entity).key, "");
  }

  // Rows -----------------------------------------------------------------------------------------

  const KEY_FIELDS: set<Field> := {PartitionKey, SortKey, EntityName}

  /** The row written for an item: its address and type, overlaid with the item's own properties. */
  function RowOf(def: EntityDef, item: Item): Item {
    var (pk, sk) := def.Address(def.RefOf(item));
    map[PartitionKey := pk, SortKey := sk, EntityName := def.name] + item
  }

  function Strip(row: Item): Item {
    row - KEY_FIELDS
  }

  predicate Plain(item: Item) {
    item.Keys !! KEY_FIELDS
  }

  /** Reading back what was written gives the item exactly when it uses none of the key properties. */
  lemma StripRecovers(def: EntityDef, item: Item)
    ensures Strip(RowOf(def, item)) == item <==> Plain(item)
    ensures Plain(item) ==> var row := RowOf(def, item);
      (row[PartitionKey], row[SortKey]) == def.Address(def.RefOf(item))
  {
    if Strip(RowOf(def, item)) == item { assert Strip(RowOf(def, item)).Keys !! KEY_FIELDS; }
    if Plain(item) { assert Strip(RowOf(def, item)).Keys == item.Keys; }
  }

  // The refinement ----------------------------------------------------------------------------------

  /** The rows hold the content's items at their addresses, and nothing else that a type owns. */
  ghost predicate Represents(reg: Registry, rows: Rows, content: Content) {
    && Keyed(reg, content)
    && (forall k :: k in content ==> Plain(content[k]) && Holds(reg, rows, k, content[k]))
    && (forall a, n :: a in rows && n in reg.byName && reg.Def(n).Owns(a.1) ==> HasRow(reg, content, a))
  }

  ghost predicate Holds(reg: Registry, rows: Rows, k: Key, item: Item)
    requires reg.Has(k.entity)
  {
    AddressOf(reg, k, item) in rows && rows[AddressOf(reg, k, item)] == RowOf(reg.Def(k.entity), item)
  }

  ghost predicate HasRow(reg: Registry, content: Content, a: Address) {
    exists k :: k in content && reg.Has(k.entity) && AddressOf(reg, k, content[k]) == a
  }

  /** One call on a store. */
  datatype StoreOp = PutOp(entity: string, item: Item) | RemoveOp(targets: seq<Target>)

  predicate Resolved(reg: Registry, op: StoreOp) {
    match op
    case PutOp(entity, item) => reg.Has(entity) && Id in item
    case RemoveOp(targets) => forall t :: t in targets ==> reg.Has(t.entity)
  }

  function OnContent(content: Content, op: StoreOp): Content
    requires op.PutOp? ==> Id in op.item
  {
    match op
    case PutOp(entity, item) => content[Key(entity, item[Id]) := item]
    case RemoveOp(targets) => content - KeysOf(targets)
  }

  function TargetAddress(reg: Registry, t: Target): Address
    requires reg.Has(t.entity)
  {
    reg.Def(t.entity).Address(t.ref)
  }

  function AddressesOf(reg: Registry, targets: seq<Target>): set<Address>
    requires forall t :: t in targets ==> reg.Has(t.entity)
  {
    set t | t in targets :: TargetAddress(reg, t)
  }

  function OnRows(reg: Registry, rows: Rows, op: StoreOp): Rows
    requires Resolved(reg, op)
  {
    match op
    case PutOp(entity, item) =>
      var row := RowOf(reg.Def(entity), item);
      rows[(row[PartitionKey], row[SortKey]) := row]
    case RemoveOp(targets) => rows - AddressesOf(reg, targets)
  }

  /** What a caller has to respect: no key properties, and no item moves between parents. */
  ghost predicate Respects(reg: Registry, content: Content, op: StoreOp) {
    Resolved(reg, op) && Keyed(reg, content) &&
    match op
    case PutOp(entity, item) => Plain(item) && Stays(reg, content, Key(entity, item[Id]), item)
    case RemoveOp(targets) => Covered(reg, content, targets)
  }

  predicate Stays(reg: Registry, content: Content, k: Key, item: Item)
    requires reg.Has(k.entity)
  {
    k in content ==> LinkText(reg.Def(k.entity), content[k]) == LinkText(reg.Def(k.entity), item)
  }

  /** Every stored item that is named for removal is named at the address it is stored at. */
  ghost predicate Covered(reg: Registry, content: Content, targets: seq<Target>)
    requires Keyed(reg, content) && forall t :: t in targets ==> reg.Has(t.entity)
  {
    forall t :: t in targets && KeyOf(t) in content ==>
      AddressOf(reg, KeyOf(t), content[KeyOf(t)]) in AddressesOf(reg, targets)
  }

  /** Another item's row is not overwritten by a put. */
  lemma OthersKeepRows(reg: Registry, rows: Rows, content: Content, k: Key, item: Item, j: Key)
    requires DistinctKeys(reg) && Represents(reg, rows, content) && reg.Has(k.entity) && Get(item, Id) == Some(k.id)
    requires j in content && j != k
    ensures Holds(reg, rows[AddressOf(reg, k, item) := RowOf(reg.Def(k.entity), item)], j, content[j])
  {
    AddressesInjective(reg, j, content[j], k, item);
    assert Holds(reg, rows, j, content[j]);
  }

  /** A row other than the one put still belongs to the item it belonged to. */
  lemma OthersKeepItems(reg: Registry, content: Content, k: Key, item: Item, a: Address)
    requires DistinctKeys(reg) && Keyed(reg, content) && reg.Has(k.entity) && Get(item, Id) == Some(k.id)
    requires Stays(reg, content, k, item)
    requires HasRow(reg, content, a)
    ensures HasRow(reg, content[k := item], a)
  {
    var j :| j in content && AddressOf(reg, j, content[j]) == a;
    if j == k { AddressesInjective(reg, k, content[k], k, item); }
    var content' := content[k := item];
    assert j in content' && AddressOf(reg, j, content'[j]) == a;
  }

  /** A put that moves no item keeps the two stores in step. */
  lemma PutKeepsStep(reg: Registry, rows: Rows, content: Content, k: Key, item: Item)
    requires DistinctKeys(reg) && Represents(reg, rows, content) && reg.Has(k.entity) && Get(item, Id) == Some(k.id)
    requires Plain(item)
    requires Stays(reg, content, k, item)
    ensures Represents(reg, rows[AddressOf(reg, k, item) := RowOf(reg.Def(k.entity), item)], content[k := item])
  {
    var at := AddressOf(reg, k, item);
    var after, content' := rows[at := RowOf(reg.Def(k.entity), item)], content[k := item];
    forall j | j in content' ensures Plain(content'[j]) && Holds(reg, after, j, content'[j]) {
      if j != k { OthersKeepRows(reg, rows, content, k, item, j); }
    }
    forall a, n | a in after && n in reg.byName && reg.Def(n).Owns(a.1) ensures HasRow(reg, content', a) {
      if a != at {
        OthersKeepItems(reg, content, k, item, a);
      } else {
        assert k in content' && content'[k] == item;
      }
    }
  }

  /**
   * A put keeps the stores in step if and only if it does not move a stored item: a
   * moved item leaves its old row behind.
   */
  lemma PutKeepsStepIff(reg: Registry, rows: Rows, content: Content, entity: string, item: Item)
    requires DistinctKeys(reg) && Represents(reg, rows, content) && reg.Has(entity) && Id in item && Plain(item)
    ensures var op := PutOp(entity, item);
      Represents(reg, OnRows(reg, rows, op), OnContent(content, op)) <==>
        Stays(reg, content, Key(entity, item[Id]), item)
  {
    var k := Key(entity, item[Id]);
    StripRecovers(reg.Def(entity), item);
    if Stays(reg, content, k, item) {
      PutKeepsStep(reg, rows, content, k, item);
    } else {
      MovedLeavesRow(reg, rows, content, k, item);
    }
  }

  lemma MovedLeavesRow(reg: Registry, rows: Rows, content: Content, k: Key, item: Item)
    requires DistinctKeys(reg) && Represents(reg, rows, content) && reg.Has(k.entity) && Get(item, Id) == Some(k.id)
    requires k in content && LinkText(reg.Def(k.entity), content[k]) != LinkText(reg.Def(k.entity), item)
    ensures !Represents(reg, rows[AddressOf(reg, k, item) := RowOf(reg.Def(k.entity), item)], content[k := item])
  {
    var stale := AddressOf(reg, k, content[k]);
    var content' := content[k := item];
    assert Holds(reg, rows, k, content[k]);
    OwnsItsRows(reg, k, content[k]);
    forall j | j in content' ensures reg.Has(j.entity) && AddressOf(reg, j, content'[j]) != stale {
      AddressesInjective(reg, j, content'[j], k, content[k]);
    }
    assert !HasRow(reg, content', stale);
  }

  /** A removal keeps the stores in step if and only if each stored item it names is named at its own address. */
  lemma RemoveKeepsStepIff(reg: Registry, rows: Rows, content: Content, targets: seq<Target>)
    requires DistinctKeys(reg) && Represents(reg, rows, content) && forall t :: t in targets ==> reg.Has(t.entity)
    ensures var op := RemoveOp(targets);
      Represents(reg, OnRows(reg, rows, op), OnContent(content, op)) <==> Covered(reg, content, targets)
  {
    if Covered(reg, content, targets) {
      RemoveKeepsStep(reg, rows, content, targets);
    } else {
      var t :| t in targets && KeyOf(t) in content
        && AddressOf(reg, KeyOf(t), content[KeyOf(t)]) !in AddressesOf(reg, targets);
      MissedLeavesRow(reg, rows, content, targets, t);
    }
  }

  lemma MissedLeavesRow(reg: Registry, rows: Rows, content: Content, targets: seq<Target>, t: Target)
    requires DistinctKeys(reg) && Represents(reg, rows, content) && forall t :: t in targets ==> reg.Has(t.entity)
    requires t in targets && KeyOf(t) in content
    requires AddressOf(reg, KeyOf(t), content[KeyOf(t)]) !in AddressesOf(reg, targets)
    ensures !Represents(reg, rows - AddressesOf(reg, targets), content - KeysOf(targets))
  {
    var k, content' := KeyOf(t), content - KeysOf(targets);
    var stale := AddressOf(reg, k, content[k]);
    assert Holds(reg, rows, k, content[k]);
    OwnsItsRows(reg, k, content[k]);
    forall j | j in content' ensures reg.Has(j.entity) && AddressOf(reg, j, content'[j]) != stale {
      AddressesInjective(reg, j, content'[j], k, content[k]);
    }
    assert !HasRow(reg, content', stale);
  }

  /** A target's address holds no stored item but the one the target names. */
  lemma TargetHits(reg: Registry, content: Content, t: Target, k: Key)
    requires DistinctKeys(reg) && Keyed(reg, content) && reg.Has(t.entity) && k in content
    requires AddressOf(reg, k, content[k]) == TargetAddress(reg, t)
    ensures k == KeyOf(t)
  {
    var d := reg.Def(t.entity);
    OwnsItsRows(reg, k, content[k]);
    assert d.Owns(TargetAddress(reg, t).1);
    OneOwner(reg, k.entity, t.entity, TargetAddress(reg, t).1);
    TokensEnd(d.key, k.id, d.key, t.ref.id);
  }

  lemma RemoveKeepsStep(reg: Registry, rows: Rows, content: Content, targets: seq<Target>)
    requires DistinctKeys(reg) && Represents(reg, rows, content) && (forall t :: t in targets ==> reg.Has(t.entity))
    requires Covered(reg, content, targets)
    ensures Represents(reg, rows - AddressesOf(reg, targets), content - KeysOf(targets))
  {
    var after, content' := rows - AddressesOf(reg, targets), content - KeysOf(targets);
    forall k | k in content' ensures Holds(reg, after, k, content'[k]) {
      assert Holds(reg, rows, k, content[k]);
      if AddressOf(reg, k, content[k]) in AddressesOf(reg, targets) {
        var t :| t in targets && TargetAddress(reg, t) == AddressOf(reg, k, content[k]);
        TargetHits(reg, content, t, k);
      }
    }
    forall a, n | a in after && n in reg.byName && reg.Def(n).Owns(a.1) ensures HasRow(reg, content', a) {
      assert HasRow(reg, content, a);
      var k :| k in content && AddressOf(reg, k, content[k]) == a;
      assert forall t :: t in targets ==> KeyOf(t) != k;
      assert content'[k] == content[k];
    }
  }

  /** The contents and the rows a run of store calls goes through. */
  ghost predicate IsStoreRun(reg: Registry, contents: seq<Content>, rows: seq<Rows>, ops: seq<StoreOp>) {
    && |contents| == |rows| == |ops| + 1
    && (forall i :: 0 <= i < |ops| ==>
          && Respects(reg, contents[i], ops[i])
          && contents[i + 1] == OnContent(contents[i], ops[i]) && rows[i + 1] == OnRows(reg, rows[i], ops[i]))
  }

  lemma StepsTogether(reg: Registry, rows: Rows, content: Content, op: StoreOp)
    requires DistinctKeys(reg) && Represents(reg, rows, content) && Respects(reg, content, op)
    ensures Represents(reg, OnRows(reg, rows, op), OnContent(content, op))
  {
    match op
    case PutOp(entity, item) => PutKeepsStepIff(reg, rows, content, entity, item);
    case RemoveOp(targets) => RemoveKeepsStepIff(reg, rows, content, targets);
  }

  /** After any run of puts and removals, the table represents the simple store's content. */
  lemma {:induction false} RunsStayTogether(reg: Registry, contents: seq<Content>, rows: seq<Rows>,
          ops: seq<StoreOp>, n: nat)
    requires DistinctKeys(reg) && IsStoreRun(reg, contents, rows, ops) && Represents(reg, rows[0], contents[0])
    requires n < |contents|
    ensures Represents(reg, rows[n], contents[n])
  {
    if n != 0 {
      RunsStayTogether(reg, contents, rows, ops, n - 1);
      StepsTogether(reg, rows[n - 1], contents[n - 1], ops[n - 1]);
    }
  }
}
