/** Configuration kept under path prefixes: loading, cloning and deleting one environment of a namespace. */
module Ssm {
  import opened Prelude

  datatype Param = Param(name: string, value: string)

  type Values = map<string, string>

  const DELETE_BATCH := 10

  function PathOf(namespace: string, env: string): string {
    "/" + namespace + "/" + env + "/"
  }

  function LeafName(name: string): string {
    if '/' in name then LeafName(name[1..]) else name
  }

  predicate SlashFree(s: string) {
    '/' !in s
  }

  lemma {:induction false} LeafOfPath(path: string, leaf: string)
    requires path != [] && path[|path| - 1] == '/' && SlashFree(leaf)
    ensures LeafName(path + leaf) == leaf
  {
    assert (path + leaf)[1..] == path[1..] + leaf;
    assert (path + leaf)[|path| - 1] == '/';
    if |path| > 1 { LeafOfPath(path[1..], leaf); } else { assert path[1..] + leaf == leaf; }
  }

  lemma {:induction false} LeafIsSlashFree(name: string)
    ensures SlashFree(LeafName(name))
  {
    if '/' in name { LeafIsSlashFree(name[1..]); }
  }

  // What the service lists ------------------------------------------------------------------------

  /** The parameters under a path, in listing order. */
  function Listed(values: Values, order: seq<string>, path: string): seq<Param>
    requires forall n :: n in order ==> n in values
  {
    if order == [] then [] else
    var rest := Listed(values, order[..|order| - 1], path);
    var n := order[|order| - 1];
    if path <= n then rest + [Param(n, values[n])] else rest
  }

  /** The names of `order` that are in `keep`, in the same order. */
  function Restrict(order: seq<string>, keep: set<string>): seq<string> {
    if order == [] then [] else
    var rest := Restrict(order[..|order| - 1], keep);
    var n := order[|order| - 1];
    if n in keep then rest + [n] else rest
  }

  ghost predicate Lists(values: Values, order: seq<string>) {
    EachOnce(order) && forall n :: n in order <==> n in values
  }

  lemma {:induction false} ListedJoin(values: Values, a: seq<string>, b: seq<string>, path: string)
    requires forall n :: n in a + b ==> n in values
    ensures (forall n :: n in a || n in b ==> n in values)
    ensures Listed(values, a, path) + Listed(values, b, path) == Listed(values, a + b, path)
  {
    assert forall n :: n in a || n in b ==> n in a + b;
    if b == [] {
      assert a + b == a;
    } else {
      assert (a + b)[..|a + b| - 1] == a + b[..|b| - 1];
      ListedJoin(values, a, b[..|b| - 1], path);
    }
  }

  lemma {:induction false} RestrictHas(order: seq<string>, keep: set<string>)
    ensures forall n :: n in Restrict(order, keep) <==> n in order && n in keep
    ensures EachOnce(order) ==> EachOnce(Restrict(order, keep))
  {
    if order != [] {
      var m := |order| - 1;
      RestrictHas(order[..m], keep);
      assert order == order[..m] + [order[m]];
    }
  }

  lemma {:induction false} RestrictTwice(order: seq<string>, a: set<string>, b: set<string>)
    requires b <= a
    ensures Restrict(Restrict(order, a), b) == Restrict(order, b)
  {
    if order != [] {
      var m := |order| - 1;
      RestrictTwice(order[..m], a, b);
      var kept := Restrict(order[..m], a);
      assert (kept + [order[m]])[..|kept|] == kept;
    }
  }

  lemma {:induction false} RestrictAll(order: seq<string>, keep: set<string>)
    requires forall n :: n in order ==> n in keep
    ensures Restrict(order, keep) == order
  {
    if order != [] {
      var m := |order| - 1;
      RestrictAll(order[..m], keep);
      assert order == order[..m] + [order[m]];
    }
  }

  /** A name filed anywhere in the order leaves the other names' order as it was. */
  lemma {:induction false} RestrictInsert(a: seq<string>, name: string, b: seq<string>, keep: set<string>)
    requires name !in keep
    ensures Restrict(a + [name] + b, keep) == Restrict(a + b, keep)
  {
    if b == [] {
      assert a + [name] + b == a + [name] && a + b == a;
      assert (a + [name])[..|a|] == a;
    } else {
      var m := |b| - 1;
      RestrictInsert(a, name, b[..m], keep);
      assert (a + [name] + b)[..|a + [name] + b| - 1] == a + [name] + b[..m];
      assert (a + b)[..|a + b| - 1] == a + b[..m];
    }
  }

  /** What was listed before is still listed, in the same order. */
  ghost predicate Grown(values: Values, order: seq<string>, values': Values, order': seq<string>) {
    values.Keys <= values'.Keys && Restrict(order', values.Keys) == order
  }

  lemma FiledAnywhere(values: Values, order: seq<string>, i: nat, name: string, value: string)
    requires Lists(values, order) && i <= |order| && name !in values
    ensures var order' := order[..i] + [name] + order[i..];
      Lists(values[name := value], order') && Restrict(order', values.Keys) == order
  {
    RestrictInsert(order[..i], name, order[i..], values.Keys);
    RestrictAll(order, values.Keys);
    assert order[..i] + order[i..] == order;
    FiledOnce(order[..i], name, order[i..]);
  }

  lemma FiledOnce(a: seq<string>, name: string, b: seq<string>)
    requires EachOnce(a + b) && name !in a + b
    ensures EachOnce(a + [name] + b) && forall n :: n in a + [name] + b <==> n in a + b || n == name
  {
    var s, t := a + b, a + [name] + b;
    forall i, j | 0 <= i < j < |t| ensures t[i] != t[j] {
      if i != |a| && j != |a| {
        assert t[i] == s[if i < |a| then i else i - 1] && t[j] == s[if j < |a| then j else j - 1];
      } else if i == |a| {
        assert t[j] == s[j - 1];
      } else {
        assert t[i] == s[i];
      }
    }
    forall n ensures n in t <==> n in s || n == name { assert n in s <==> n in a || n in b; }
  }

  lemma GrownTwice(v0: Values, o0: seq<string>, v1: Values, o1: seq<string>, v2: Values, o2: seq<string>)
    requires Grown(v0, o0, v1, o1) && Grown(v1, o1, v2, o2)
    ensures Grown(v0, o0, v2, o2)
  {
    RestrictTwice(o2, v1.Keys, v0.Keys);
  }

  /** The service: it pages as it likes, an empty page included, and files a new name anywhere in its order. */
  class ParameterStore {
    var values: Values
    var order: seq<string>
    ghost var deletions: seq<seq<string>>

    ghost predicate Valid()
      reads this
    {
      Lists(values, order)
    }

    constructor ()
      ensures Valid() && values == map[] && deletions == []
    {
      values, order, deletions := map[], [], [];
    }

    /** A page of the listing, from a position of the order on; the token is where the next one starts. */
    method GetByPath(path: string, token: nat) returns (page: seq<Param>, next: Option<nat>)
      requires Valid() && token <= |order|
      ensures next.Some? ==> token < next.value <= |order|
      ensures page == Listed(values, order[token..next.GetOr(|order|)], path)
    {
      var all := *;
      assert order[token..|order|] == order[token..];
      if all || token == |order| { return Listed(values, order[token..], path), None; }
      var to :| token < to <= |order|;
      return Listed(values, order[token..to], path), Some(to);
    }

    method Put(name: string, value: string)
      requires Valid()
      modifies this`values, this`order
      ensures Valid() && values == old(values)[name := value] && Grown(old(values), old(order), values, order)
    {
      RestrictAll(order, values.Keys);
      if name !in values {
        var i :| 0 <= i <= |order|;
        FiledAnywhere(values, order, i, name, value);
        order := order[..i] + [name] + order[i..];
      }
      values := values[name := value];
    }

    /** Names that are not there are passed over. */
    method Delete(names: seq<string>)
      requires Valid() && 0 < |names| <= DELETE_BATCH
      modifies this
      ensures Valid() && values == old(values) - (set n | n in names) && order == Restrict(old(order), values.Keys)
      ensures deletions == old(deletions) + [names]
    {
      values := values - (set n | n in names);
      RestrictHas(order, values.Keys);
      order := Restrict(order, values.Keys);
      deletions := deletions + [names];
    }
  }

  /** Pagination loses and repeats nothing. */
  method ListParametersUnderPath(client: ParameterStore, path: string) returns (results: seq<Param>)
    requires client.Valid()
    ensures results == Listed(client.values, client.order, path)
  {
    results := [];
    var token: nat, more := 0, true;
    ghost var done: nat := 0;
    while more
      invariant token <= |client.order| && (more ==> done == token) && (!more ==> done == |client.order|)
      invariant results == Listed(client.values, client.order[..done], path)
      decreases if more then |client.order| - token + 1 else 0
    {
      var page, next := client.GetByPath(path, token);
      done := next.GetOr(|client.order|);
      ListedJoin(client.values, client.order[..token], client.order[token..done], path);
      assert client.order[..token] + client.order[token..done] == client.order[..done];
      results := results + page;
      token, more := next.GetOr(token), next.Some?;
    }
    assert client.order[..done] == client.order;
  }

  // Leaf maps ------------------------------------------------------------------------------------------

  /** Values by leaf name; of names that share a leaf the last listed wins. */
  function ToLeafMap(params: seq<Param>): Values {
    if params == [] then map[] else
    var p := params[|params| - 1];
    ToLeafMap(params[..|params| - 1])[LeafName(p.name) := p.value]
  }

  /** The last name under a path with a given leaf. */
  function LastName(order: seq<string>, path: string, leaf: string): Option<string> {
    if order == [] then None else
    var n := order[|order| - 1];
    if path <= n && LeafName(n) == leaf then Some(n) else LastName(order[..|order| - 1], path, leaf)
  }

  function ValueOf(values: Values, name: Option<string>): Option<string> {
    if name.Some? && name.value in values then Some(values[name.value]) else None
  }

  function At(values: Values, name: string): Option<string> {
    ValueOf(values, Some(name))
  }

  lemma {:induction false} LastNameIs(order: seq<string>, path: string, leaf: string)
    ensures var last := LastName(order, path, leaf);
      && (last.Some? ==> last.value in order && path <= last.value && LeafName(last.value) == leaf)
      && (last.Some? ==> exists i :: LastAt(order, path, leaf, i) && order[i] == last.value)
      && (last.None? ==> forall n :: n in order && path <= n ==> LeafName(n) != leaf)
  {
    if order != [] {
      var m := |order| - 1;
      LastNameIs(order[..m], path, leaf);
      assert order == order[..m] + [order[m]];
      if path <= order[m] && LeafName(order[m]) == leaf {
        assert LastAt(order, path, leaf, m);
      } else if LastName(order, path, leaf).Some? {
        var i :| LastAt(order[..m], path, leaf, i) && order[..m][i] == LastName(order, path, leaf).value;
        assert LastAt(order, path, leaf, i);
      }
    }
  }

  /** No later name under the path has the leaf. */
  predicate LastAt(order: seq<string>, path: string, leaf: string, i: int) {
    0 <= i < |order| && forall j :: i < j < |order| && path <= order[j] ==> LeafName(order[j]) != leaf
  }

  /** A leaf's value is that of the last listed name with the leaf. */
  lemma {:induction false} LeafMapIsLast(values: Values, order: seq<string>, path: string, leaf: string)
    requires forall n :: n in order ==> n in values
    ensures At(ToLeafMap(Listed(values, order, path)), leaf) == ValueOf(values, LastName(order, path, leaf))
  {
    if order != [] {
      var m := |order| - 1;
      LeafMapIsLast(values, order[..m], path, leaf);
      var rest := Listed(values, order[..m], path);
      if path <= order[m] { assert (rest + [Param(order[m], values[order[m]])])[..|rest|] == rest; }
    }
  }

  /** Names filed among others do not change which of the others is last. */
  lemma {:induction false} LastAmong(order: seq<string>, keep: set<string>, path: string, leaf: string)
    ensures var last := LastName(order, path, leaf);
      && (last.Some? && last.value in keep ==> LastName(Restrict(order, keep), path, leaf) == last)
      && (last.None? ==> LastName(Restrict(order, keep), path, leaf) == None)
  {
    if order != [] {
      var m := |order| - 1;
      LastAmong(order[..m], keep, path, leaf);
      var rest := Restrict(order[..m], keep);
      assert (rest + [order[m]])[..|rest|] == rest;
    }
  }

  // Loading ----------------------------------------------------------------------------------------------

  function LeafMapUnder(values: Values, order: seq<string>, path: string): Values
    requires forall n :: n in order ==> n in values
  {
    ToLeafMap(Listed(values, order, path))
  }

  /** The environment's own values over the shared ones. */
  function Loaded(values: Values, order: seq<string>, namespace: string, env: string, includeShared: bool): Values
    requires forall n :: n in order ==> n in values
  {
    (if includeShared then LeafMapUnder(values, order, PathOf(namespace, "shared")) else map[])
    + LeafMapUnder(values, order, PathOf(namespace, env))
  }

  /** A loaded leaf is the environment's last listed one, else the last shared one, else absent. */
  lemma LoadedIs(values: Values, order: seq<string>, namespace: string, env: string, includeShared: bool, leaf: string)
    requires Lists(values, order)
    ensures var own, shared := LastName(order, PathOf(namespace, env), leaf),
            LastName(order, PathOf(namespace, "shared"), leaf);
      At(Loaded(values, order, namespace, env, includeShared), leaf) ==
        if own.Some? then At(values, own.value) else if includeShared && shared.Some? then At(values, shared.value)
          else None
  {
    LeafMapIsLast(values, order, PathOf(namespace, env), leaf);
    LeafMapIsLast(values, order, PathOf(namespace, "shared"), leaf);
    LastNameIs(order, PathOf(namespace, env), leaf);
    LastNameIs(order, PathOf(namespace, "shared"), leaf);
  }

  method LoadSsmConfig(client: ParameterStore, namespace: string, env: string,
          includeShared: bool) returns (merged: Values)
    requires client.Valid()
    ensures merged == Loaded(client.values, client.order, namespace, env, includeShared)
  {
    merged := map[];
    if includeShared {
      var shared := ListParametersUnderPath(client, PathOf(namespace, "shared"));
      merged := merged + ToLeafMap(shared);
    }
    var own := ListParametersUnderPath(client, PathOf(namespace, env));
    merged := merged + ToLeafMap(own);
  }

  // Cloning -------------------------------------------------------------------------------------------------

  /** The parameters written under a path by their leaf names, one after the other. */
  function Written(values: Values, params: seq<Param>, path: string): Values {
    if params == [] then values else
    var p := params[|params| - 1];
    Written(values, params[..|params| - 1], path)[path + LeafName(p.name) := p.value]
  }

  function TargetNames(params: seq<Param>, path: string): seq<string> {
    seq(|params|, i requires 0 <= i < |params| => path + LeafName(params[i].name))
  }

  method WriteAll(client: ParameterStore, params: seq<Param>, path: string) returns (written: seq<string>)
    requires client.Valid()
    modifies client`values, client`order
    ensures client.Valid() && Grown(old(client.values), old(client.order), client.values, client.order)
    ensures client.values == Written(old(client.values), params, path) && written == TargetNames(params, path)
  {
    written := [];
    RestrictAll(client.order, client.values.Keys);
    for i := 0 to |params|
      invariant client.Valid() && Grown(old(client.values), old(client.order), client.values, client.order)
      invariant client.values == Written(old(client.values), params[..i], path)
      invariant written == TargetNames(params[..i], path)
    {
      assert params[..i + 1][..i] == params[..i];
      ghost var values, order := client.values, client.order;
      client.Put(path + LeafName(params[i].name), params[i].value);
      GrownTwice(old(client.values), old(client.order), values, order, client.values, client.order);
      written := written + [path + LeafName(params[i].name)];
    }
    assert params[..|params|] == params;
  }

  /** Writes what is listed under the source, by leaf name, under the target, overwriting what is there. */
  method CloneSsmNamespace(client: ParameterStore, namespace: string, source: string,
          target: string) returns (written: seq<string>)
    requires client.Valid()
    modifies client`values, client`order
    ensures client.Valid() && Grown(old(client.values), old(client.order), client.values, client.order)
    ensures var params := Listed(old(client.values), old(client.order), PathOf(namespace, source));
      && client.values == Written(old(client.values), params, PathOf(namespace, target))
      && |written| == |params|
      && forall i :: 0 <= i < |params| ==>
           written[i] == "/" + namespace + "/" + target + "/" + LeafName(params[i].name)
  {
    var params := ListParametersUnderPath(client, PathOf(namespace, source));
    written := WriteAll(client, params, PathOf(namespace, target));
  }

  // Deleting --------------------------------------------------------------------------------------------------

  function NamesOf(params: seq<Param>): seq<string> {
    seq(|params|, i requires 0 <= i < |params| => params[i].name)
  }

  function Concat(batches: seq<seq<string>>): seq<string> {
    if batches == [] then [] else Concat(batches[..|batches| - 1]) + batches[|batches| - 1]
  }

  /** Calls made, in order: batches of at most ten that add up to the names. */
  ghost predicate InBatches(before: seq<seq<string>>, after: seq<seq<string>>, names: seq<string>) {
    && before <= after && Concat(after[|before|..]) == names
    && forall i :: |before| <= i < |after| ==> 0 < |after[i]| <= 10
  }

  lemma BatchAdded(before: seq<seq<string>>, after: seq<seq<string>>, names: seq<string>, batch: seq<string>)
    requires InBatches(before, after, names) && 0 < |batch| <= DELETE_BATCH
    ensures InBatches(before, after + [batch], names + batch)
  {
    var made := (after + [batch])[|before|..];
    assert made[..|made| - 1] == after[|before|..];
  }

  /** The names are gone, and the rest is listed as before. */
  ghost predicate Gone(v0: Values, o0: seq<string>, v: Values, o: seq<string>, names: seq<string>) {
    v == v0 - (set n | n in names) && o == Restrict(o0, v.Keys)
  }

  lemma GoneMore(v0: Values, o0: seq<string>, v: Values, o: seq<string>, names: seq<string>, batch: seq<string>)
    requires Gone(v0, o0, v, o, names)
    ensures var v' := v - (set n | n in batch); Gone(v0, o0, v', Restrict(o, v'.Keys), names + batch)
  {
    RestrictTwice(o0, v.Keys, (v - (set n | n in batch)).Keys);
    assert forall n :: n in names + batch <==> n in names || n in batch;
  }

  method DeleteAll(client: ParameterStore, names: seq<string>) returns (deleted: seq<string>)
    requires client.Valid()
    modifies client
    ensures client.Valid() && Gone(old(client.values), old(client.order), client.values, client.order, names)
    ensures deleted == names && InBatches(old(client.deletions), client.deletions, names)
  {
    deleted := [];
    RestrictAll(client.order, client.values.Keys);
    var i := 0;
    while i < |names|
      invariant client.Valid() && deleted == names[..if i < |names| then i else |names|]
      invariant Gone(old(client.values), old(client.order), client.values, client.order, deleted)
      invariant InBatches(old(client.deletions), client.deletions, deleted)
      decreases |names| - i
    {
      var batch := names[i..if i + DELETE_BATCH < |names| then i + DELETE_BATCH else |names|];
      BatchAdded(old(client.deletions), client.deletions, deleted, batch);
      GoneMore(old(client.values), old(client.order), client.values, client.order, deleted, batch);
      client.Delete(batch);
      deleted := deleted + batch;
      i := i + DELETE_BATCH;
    }
  }

  /** Deletes what is listed under the path, in batches that add up to the list. */
  method DeleteSsmNamespace(client: ParameterStore, namespace: string, env: string) returns (deleted: seq<string>)
    requires client.Valid()
    modifies client
    ensures client.Valid() && client.values == Outside(old(client.values), PathOf(namespace, env))
    ensures client.order == Restrict(old(client.order), client.values.Keys)
    ensures deleted == NamesOf(Listed(old(client.values), old(client.order), PathOf(namespace, env)))
    ensures InBatches(old(client.deletions), client.deletions, deleted)
  {
    var params := ListParametersUnderPath(client, PathOf(namespace, env));
    ListedNames(client.values, client.order, PathOf(namespace, env));
    RestrictAll(client.order, client.values.Keys);
    if |params| == 0 { return []; }
    deleted := DeleteAll(client, NamesOf(params));
  }

  /** The parameters that are not under a path. */
  function Outside(values: Values, path: string): Values {
    map n | n in values && !(path <= n) :: values[n]
  }

  lemma {:induction false} ListedNames(values: Values, order: seq<string>, path: string)
    requires forall n :: n in order ==> n in values
    ensures forall n :: n in NamesOf(Listed(values, order, path)) <==> n in order && path <= n
  {
    if order != [] {
      var m := |order| - 1;
      ListedNames(values, order[..m], path);
      assert order == order[..m] + [order[m]];
      var rest := Listed(values, order[..m], path);
      assert path <= order[m] ==> NamesOf(rest + [Param(order[m], values[order[m]])]) == NamesOf(rest) + [order[m]];
    }
  }

  // What cloning and deleting promise --------------------------------------------------------------------------

  /** Writing by leaf name leaves, under each leaf, the value the leaf map gives; nothing else changes. */
  lemma {:induction false} WrittenIs(values: Values, params: seq<Param>, path: string, name: string)
    ensures At(Written(values, params, path), name) ==
      if path <= name && name[|path|..] in ToLeafMap(params) then At(ToLeafMap(params), name[|path|..])
        else At(values, name)
  {
    if params != [] {
      var p := params[|params| - 1];
      WrittenIs(values, params[..|params| - 1], path, name);
      var leaf := LeafName(p.name);
      assert (path + leaf)[|path|..] == leaf;
      assert path <= name ==> name == path + name[|path|..];
    }
  }

  lemma {:induction false} LeavesAreSlashFree(params: seq<Param>)
    ensures forall leaf :: leaf in ToLeafMap(params) ==> SlashFree(leaf)
  {
    if params != [] {
      LeavesAreSlashFree(params[..|params| - 1]);
      LeafIsSlashFree(params[|params| - 1].name);
    }
  }

  /** The state a clone leaves: the leaf map written under `path`, filed anywhere among the names that were there. */
  ghost predicate Copied(values: Values, order: seq<string>, values': Values, order': seq<string>, leaves: Values,
          path: string) {
    && Lists(values, order) && Lists(values', order') && Grown(values, order, values', order')
    && path != [] && path[|path| - 1] == '/' && (forall leaf :: leaf in leaves ==> SlashFree(leaf))
    && (forall name :: At(values', name) == if path <= name && name[|path|..] in leaves
       then At(leaves, name[|path|..]) else At(values, name))
  }

  lemma CopiedLeaf(values: Values, order: seq<string>, values': Values, order': seq<string>, leaves: Values,
          path: string, leaf: string)
    requires Copied(values, order, values', order', leaves, path) && leaf in leaves
    ensures At(values', path + leaf) == Some(leaves[leaf]) && path + leaf in order' && LeafName(path + leaf) == leaf
    ensures path <= path + leaf
  {
    LeafOfPath(path, leaf);
    assert (path + leaf)[|path|..] == leaf;
  }

  /** A name that was not there before is the path and a leaf. */
  lemma CopiedNew(values: Values, order: seq<string>, values': Values, order': seq<string>, leaves: Values,
          path: string, name: string)
    requires Copied(values, order, values', order', leaves, path) && name in values' && name !in values
    ensures LeafName(name) in leaves && name == path + LeafName(name)
  {
    assert At(values', name).Some? && At(values, name).None?;
    PathAndLeaf(path, name);
  }

  /** Nothing was under the target: afterwards its leaf map is the source's. */
  lemma TargetLeaf(values: Values, order: seq<string>, values': Values, order': seq<string>, leaves: Values,
          path: string, leaf: string)
    requires Copied(values, order, values', order', leaves, path) && forall n :: n in values ==> !(path <= n)
    ensures At(LeafMapUnder(values', order', path), leaf) == At(leaves, leaf)
  {
    LeafMapIsLast(values', order', path, leaf);
    LastNameIs(order', path, leaf);
    var last := LastName(order', path, leaf);
    if last.Some? { CopiedNew(values, order, values', order', leaves, path, last.value); }
    if leaf in leaves { CopiedLeaf(values, order, values', order', leaves, path, leaf); }
  }

  /** Under any path, a leaf the clone did not write has the value it had. */
  lemma OtherLeaf(values: Values, order: seq<string>, values': Values, order': seq<string>, leaves: Values,
          path: string, other: string, leaf: string)
    requires Copied(values, order, values', order', leaves, path) && leaf !in leaves
    ensures At(LeafMapUnder(values', order', other), leaf) == At(LeafMapUnder(values, order, other), leaf)
  {
    LeafMapIsLast(values', order', other, leaf);
    LeafMapIsLast(values, order, other, leaf);
    LastNameIs(order', other, leaf);
    LastAmong(order', values.Keys, other, leaf);
    var last := LastName(order', other, leaf);
    if last.Some? {
      if last.value !in values { CopiedNew(values, order, values', order', leaves, path, last.value); }
      assert At(values', last.value) == At(values, last.value) by {
        if path <= last.value && SlashFree(last.value[|path|..]) { PathAndLeaf(path, last.value); }
      }
    }
  }

  lemma PathAndLeaf(path: string, name: string)
    requires path != [] && path[|path| - 1] == '/' && path <= name && SlashFree(name[|path|..])
    ensures name == path + LeafName(name) && LeafName(name) == name[|path|..]
  {
    LeafOfPath(path, name[|path|..]);
    assert name == path + name[|path|..];
  }

  lemma CloneCopies(values: Values, order: seq<string>, values': Values, order': seq<string>, source: string,
          path: string)
    requires Lists(values, order) && Lists(values', order') && Grown(values, order, values', order') && path != []
    requires path[|path| - 1] == '/'
    requires values' == Written(values, Listed(values, order, source), path)
    ensures Copied(values, order, values', order', LeafMapUnder(values, order, source), path)
  {
    var params := Listed(values, order, source);
    LeavesAreSlashFree(params);
    forall name ensures At(values', name) == if path <= name && name[|path|..] in ToLeafMap(params)
      then At(ToLeafMap(params), name[|path|..]) else At(values, name) {
      WrittenIs(values, params, path, name);
    }
  }

  lemma SameValues(a: Values, b: Values)
    requires forall n :: At(a, n) == At(b, n)
    ensures a == b
  {
    forall n ensures n in a <==> n in b { assert At(a, n) == At(b, n); }
    forall n | n in a ensures a[n] == b[n] { assert At(a, n) == At(b, n); }
  }

  /** The state `CloneSsmNamespace` leaves. */
  ghost predicate Cloned(values: Values, order: seq<string>, values': Values, order': seq<string>,
          namespace: string, source: string, target: string) {
    && Lists(values, order) && Lists(values', order') && Grown(values, order, values', order')
    && values' == Written(values, Listed(values, order, PathOf(namespace, source)), PathOf(namespace, target))
  }

  predicate Empty(values: Values, namespace: string, env: string) {
    forall n :: n in values ==> !(PathOf(namespace, env) <= n)
  }

  /**
   * Cloning into an environment that has nothing makes loading it give what
   * loading the source gave, whatever the environments are called, wherever the
   * copies are listed, and even where nested names share a leaf.
   */
  lemma CloneLoadsTheSame(values: Values, order: seq<string>, values': Values, order': seq<string>,
          namespace: string, source: string, target: string, shared: bool)
    requires Cloned(values, order, values', order', namespace, source, target) && Empty(values, namespace, target)
    ensures Loaded(values', order', namespace, target, shared) == Loaded(values, order, namespace, source, shared)
  {
    var path, leaves := PathOf(namespace, target), LeafMapUnder(values, order, PathOf(namespace, source));
    CloneCopies(values, order, values', order', PathOf(namespace, source), path);
    forall leaf ensures At(Loaded(values', order', namespace, target, shared), leaf)
      == At(Loaded(values, order, namespace, source, shared), leaf) {
      TargetLeaf(values, order, values', order', leaves, path, leaf);
      if leaf !in leaves { OtherLeaf(values, order, values', order', leaves, path, PathOf(namespace, "shared"), leaf); }
    }
    SameValues(Loaded(values', order', namespace, target, shared), Loaded(values, order, namespace, source, shared));
  }

  /** Deleting the clone again restores the whole store, listing order included. */
  lemma CloneThenDeleteRestores(values: Values, order: seq<string>, values': Values, order': seq<string>,
          namespace: string, source: string, target: string)
    requires Cloned(values, order, values', order', namespace, source, target) && Empty(values, namespace, target)
    ensures Outside(values', PathOf(namespace, target)) == values
    ensures Restrict(order', Outside(values', PathOf(namespace, target)).Keys) == order
  {
    var path, leaves := PathOf(namespace, target), LeafMapUnder(values, order, PathOf(namespace, source));
    CloneCopies(values, order, values', order', PathOf(namespace, source), path);
    forall n ensures At(Outside(values', path), n) == At(values, n) {
      assert At(values', n) == if path <= n && n[|path|..] in leaves then At(leaves, n[|path|..]) else At(values, n);
    }
    SameValues(Outside(values', path), values);
  }

  /** Every leaf of the source has after a clone the value it had, wherever the target lies. */
  lemma SourceLeafStays(values: Values, order: seq<string>, values': Values, order': seq<string>, source: string,
          path: string, leaf: string)
    requires Lists(values, order) && Copied(values, order, values', order', LeafMapUnder(values, order, source), path)
    ensures At(LeafMapUnder(values', order', source), leaf) == At(LeafMapUnder(values, order, source), leaf)
  {
    var leaves := LeafMapUnder(values, order, source);
    if leaf !in leaves {
      OtherLeaf(values, order, values', order', leaves, path, source, leaf);
    } else {
      LeafMapIsLast(values', order', source, leaf);
      LeafMapIsLast(values, order, source, leaf);
      LastNameIs(order', source, leaf);
      LastAmong(order', values.Keys, source, leaf);
      var q := LastName(order', source, leaf).value;
      assert At(values', q) == if path <= q && q[|path|..] in leaves then At(leaves, q[|path|..]) else At(values, q);
      if path <= q && SlashFree(q[|path|..]) { PathAndLeaf(path, q); }
      if q !in values { CopiedNew(values, order, values', order', leaves, path, q); }
    }
  }

  /** Cloning again changes nothing, even into a target inside the source. */
  lemma CloneIsIdempotent(values: Values, order: seq<string>, values': Values, order': seq<string>,
          namespace: string, source: string, target: string)
    requires Cloned(values, order, values', order', namespace, source, target)
    ensures Written(values', Listed(values', order', PathOf(namespace, source)), PathOf(namespace, target)) == values'
  {
    var from, path := PathOf(namespace, source), PathOf(namespace, target);
    var leaves := LeafMapUnder(values, order, from);
    CloneCopies(values, order, values', order', from, path);
    forall leaf ensures At(LeafMapUnder(values', order', from), leaf) == At(leaves, leaf) {
      SourceLeafStays(values, order, values', order', from, path, leaf);
    }
    SameValues(LeafMapUnder(values', order', from), leaves);
    var again := Written(values', Listed(values', order', from), path);
    forall n ensures At(again, n) == At(values', n) {
      WrittenIs(values', Listed(values', order', from), path, n);
      assert At(values', n) == if path <= n && n[|path|..] in leaves then At(leaves, n[|path|..]) else At(values, n);
    }
    SameValues(again, values');
  }

  // Environments apart -----------------------------------------------------------------------------------------

  /** The names of one environment of a namespace. */
  lemma PathIs(namespace: string, env: string, name: string)
    ensures PathOf(namespace, env) <= name <==> exists rest :: name == "/" + namespace + "/" + env + "/" + rest
  {
    var path := PathOf(namespace, env);
    if path <= name { assert name == path + name[|path|..]; }
  }

  /** Two environments have a name in common only if they are the same. */
  lemma EnvironmentsApart(namespace: string, env: string, namespace': string, env': string, name: string)
    requires SlashFree(namespace) && SlashFree(env) && SlashFree(namespace') && SlashFree(env')
    requires PathOf(namespace, env) <= name && PathOf(namespace', env') <= name
    ensures namespace == namespace' && env == env'
  {
    var p, q := PathOf(namespace, env), PathOf(namespace', env');
    var x, y := env + ("/" + name[|p|..]), env' + ("/" + name[|q|..]);
    assert name[1..] == namespace + ("/" + x) && name[1..] == namespace' + ("/" + y);
    FirstPart(namespace, x, namespace', y);
    FirstPart(env, name[|p|..], env', name[|q|..]);
  }

  /** What stands before the first slash. */
  lemma FirstPart(a: string, x: string, b: string, y: string)
    requires SlashFree(a) && SlashFree(b) && a + ("/" + x) == b + ("/" + y)
    ensures a == b && x == y
  {
    var s, t := a + ("/" + x), b + ("/" + y);
    assert s[|a|] == '/' && t[|b|] == '/';
    assert forall k :: 0 <= k < |a| ==> s[k] == a[k] && a[k] in a;
    assert forall k :: 0 <= k < |b| ==> t[k] == b[k] && b[k] in b;
    assert a == s[..|a|] && b == t[..|b|] && x == s[|a| + 1..] && y == t[|b| + 1..];
  }

  /** Stores that agree on what is under a path list it alike, whatever else the one lists. */
  lemma {:induction false} ListedAlike(values: Values, order: seq<string>, values': Values, path: string)
    requires forall n :: n in order ==> n in values
    requires forall n :: n in order && path <= n ==> n in values' && values'[n] == values[n]
    ensures forall n :: n in Restrict(order, values'.Keys) ==> n in values'
    ensures Listed(values', Restrict(order, values'.Keys), path) == Listed(values, order, path)
  {
    RestrictHas(order, values'.Keys);
    if order != [] {
      var m := |order| - 1;
      assert order == order[..m] + [order[m]];
      ListedAlike(values, order[..m], values', path);
      var rest := Restrict(order[..m], values'.Keys);
      RestrictHas(order[..m], values'.Keys);
      assert (rest + [order[m]])[..|rest|] == rest;
    }
  }

  predicate IsUnder(path: string, name: string) {
    path <= name
  }

  /** Two paths without a name in common. */
  ghost predicate Apart(path: string, path': string) {
    forall name: string :: IsUnder(path, name) ==> !IsUnder(path', name)
  }

  /** The state `DeleteSsmNamespace` leaves. */
  ghost predicate DeletedUnder(values: Values, order: seq<string>, values': Values, order': seq<string>, path: string) {
    Lists(values, order) && values' == Outside(values, path) && order' == Restrict(order, values'.Keys)
  }

  lemma DeletionSpares(values: Values, order: seq<string>, values': Values, order': seq<string>, path: string,
          other: string)
    requires DeletedUnder(values, order, values', order', path) && Apart(path, other)
    ensures forall n :: n in order' ==> n in values'
    ensures LeafMapUnder(values', order', other) == LeafMapUnder(values, order, other)
  {
    forall n | n in order && other <= n ensures n in values' && values'[n] == values[n] {
      assert IsUnder(other, n) && !IsUnder(path, n);
    }
    ListedAlike(values, order, values', other);
  }

  lemma DeletionEmpties(values: Values, order: seq<string>, values': Values, order': seq<string>, path: string)
    requires DeletedUnder(values, order, values', order', path)
    ensures forall n :: n in order' ==> n in values'
    ensures LeafMapUnder(values', order', path) == map[]
  {
    RestrictHas(order, values'.Keys);
    NothingListed(values', order', path);
  }

  lemma {:induction false} NothingListed(values: Values, order: seq<string>, path: string)
    requires forall n :: n in order ==> n in values && !(path <= n)
    ensures Listed(values, order, path) == []
  {
    if order != [] {
      var m := |order| - 1;
      forall n | n in order[..m] ensures n in values && !(path <= n) { assert n in order; }
      NothingListed(values, order[..m], path);
    }
  }

  lemma PathsApart(namespace: string, env: string, namespace': string, env': string)
    requires SlashFree(namespace) && SlashFree(env) && SlashFree(namespace') && SlashFree(env')
    requires (namespace, env) != (namespace', env')
    ensures Apart(PathOf(namespace, env), PathOf(namespace', env'))
  {
    forall name: string | IsUnder(PathOf(namespace, env), name)
      ensures !IsUnder(PathOf(namespace', env'), name)
    {
      if IsUnder(PathOf(namespace', env'), name) {
        EnvironmentsApart(namespace, env, namespace', env', name);
      }
    }
  }

  /**
   * Deleting one environment leaves what every other one loads as it was, with
   * shared values unless the shared ones were deleted.
   */
  lemma DeletionIsLocal(values: Values, order: seq<string>, values': Values, order': seq<string>, namespace: string,
          env: string, namespace': string, other: string, shared: bool)
    requires SlashFree(namespace) && SlashFree(env) && SlashFree(namespace') && SlashFree(other)
    requires DeletedUnder(values, order, values', order', PathOf(namespace, env))
    requires (namespace, env) != (namespace', other) && (shared ==> (namespace, env) != (namespace', "shared"))
    ensures forall n :: n in order' ==> n in values'
    ensures Loaded(values', order', namespace', other, shared) == Loaded(values, order, namespace', other, shared)
  {
    var path := PathOf(namespace, env);
    PathsApart(namespace, env, namespace', other);
    DeletionSpares(values, order, values', order', path, PathOf(namespace', other));
    if shared {
      PathsApart(namespace, env, namespace', "shared");
      DeletionSpares(values, order, values', order', path, PathOf(namespace', "shared"));
    }
  }

  /** What a deleted environment loads are the shared values alone. */
  lemma DeletionLeavesShared(values: Values, order: seq<string>, values': Values, order': seq<string>,
          namespace: string, env: string, shared: bool)
    requires SlashFree(namespace) && SlashFree(env) && env != "shared"
    requires DeletedUnder(values, order, values', order', PathOf(namespace, env))
    ensures forall n :: n in order' ==> n in values'
    ensures Loaded(values', order', namespace, env, shared) ==
      if shared then LeafMapUnder(values, order, PathOf(namespace, "shared")) else map[]
  {
    DeletionEmpties(values, order, values', order', PathOf(namespace, env));
    PathsApart(namespace, env, namespace, "shared");
    DeletionSpares(values, order, values', order', PathOf(namespace, env), PathOf(namespace, "shared"));
  }

  lemma CloneSpares(values: Values, order: seq<string>, values': Values, order': seq<string>, namespace: string,
          source: string, target: string, other: string)
    requires Cloned(values, order, values', order', namespace, source, target)
             && Apart(PathOf(namespace, target), other)
    ensures LeafMapUnder(values', order', other) == LeafMapUnder(values, order, other)
  {
    var path, leaves := PathOf(namespace, target), LeafMapUnder(values, order, PathOf(namespace, source));
    CloneCopies(values, order, values', order', PathOf(namespace, source), path);
    forall n | n in order' && other <= n ensures n in values && values[n] == values'[n] {
      assert IsUnder(other, n) && !IsUnder(path, n);
      assert At(values', n) == At(values, n);
    }
    ListedAlike(values', order', values, other);
  }

  /**
   * Cloning into one environment leaves what every other one loads as it was,
   * with shared values unless the target is the shared ones.
   */
  lemma CloneIsLocal(values: Values, order: seq<string>, values': Values, order': seq<string>, namespace: string,
          source: string, target: string, namespace': string, other: string, shared: bool)
    requires SlashFree(namespace) && SlashFree(target) && SlashFree(namespace') && SlashFree(other)
    requires Cloned(values, order, values', order', namespace, source, target)
    requires (namespace, target) != (namespace', other) && (shared ==> (namespace, target) != (namespace', "shared"))
    ensures Loaded(values', order', namespace', other, shared) == Loaded(values, order, namespace', other, shared)
  {
    PathsApart(namespace, target, namespace', other);
    CloneSpares(values, order, values', order', namespace, source, target, PathOf(namespace', other));
    if shared {
      PathsApart(namespace, target, namespace', "shared");
      CloneSpares(values, order, values', order', namespace, source, target, PathOf(namespace', "shared"));
    }
  }
}
