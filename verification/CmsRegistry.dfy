/** Registering an app's content types: what the registry checks, and what it then guarantees. */
module CmsRegistry {
  import opened Prelude
  import opened CmsModel

  datatype RegistryError = RegisteredTwice(name: string) | UnregisteredParent(name: string)

  predicate NamesDistinct(specs: seq<EntitySpec>) {
    forall i, j :: 0 <= i < j < |specs| ==> specs[i].def.name != specs[j].def.name
  }

  predicate Named(specs: seq<EntitySpec>, name: string) {
    exists i :: 0 <= i < |specs| && specs[i].def.name == name
  }

  predicate ParentNamed(specs: seq<EntitySpec>, def: EntityDef) {
    def.parent.Some? ==> Named(specs, def.parent.value.name)
  }

  /** The types by name, each under its own. */
  ghost predicate Filed(specs: seq<EntitySpec>, byName: map<string, EntitySpec>) {
    && (forall i :: 0 <= i < |specs| ==> specs[i].def.name in byName && byName[specs[i].def.name] == specs[i])
    && (forall n :: n in byName ==> byName[n].def.name == n && Named(specs, n))
  }

  /** The types before `i` are filed and have names of their own. */
  ghost predicate FiledUpTo(specs: seq<EntitySpec>, byName: map<string, EntitySpec>, i: nat) {
    i <= |specs| && Filed(specs[..i], byName) && NamesDistinct(specs[..i])
  }

  lemma FiledMore(specs: seq<EntitySpec>, byName: map<string, EntitySpec>, i: nat)
    requires i < |specs| && FiledUpTo(specs, byName, i) && specs[i].def.name !in byName
    ensures FiledUpTo(specs, byName[specs[i].def.name := specs[i]], i + 1)
  {
    var few, more := specs[..i], specs[..i + 1];
    assert forall j :: 0 <= j < i ==> few[j] == more[j] && few[j].def.name in byName;
    forall n | Named(few, n) ensures Named(more, n) {
      var j :| 0 <= j < i && few[j].def.name == n;
      assert more[j].def.name == n;
    }
    assert more[i].def.name == specs[i].def.name;
  }

  lemma NameTaken(specs: seq<EntitySpec>, byName: map<string, EntitySpec>, i: nat)
    requires i < |specs| && FiledUpTo(specs, byName, i) && specs[i].def.name in byName
    ensures !NamesDistinct(specs)
  {
    var j :| 0 <= j < i && specs[..i][j].def.name == specs[i].def.name;
    assert specs[j].def.name == specs[i].def.name;
  }

  lemma FiledIsNamed(specs: seq<EntitySpec>, byName: map<string, EntitySpec>, name: string)
    requires Filed(specs, byName)
    ensures name in byName <==> Named(specs, name)
  {
    if Named(specs, name) {
      var j :| 0 <= j < |specs| && specs[j].def.name == name;
      assert specs[j].def.name in byName;
    }
  }

  /** Succeeds exactly when names are distinct and parents are registered; a repeated name is reported first. */
  method Register(specs: seq<EntitySpec>) returns (r: Result<map<string, EntitySpec>, RegistryError>)
    ensures r.Ok? <==> NamesDistinct(specs) && forall i :: 0 <= i < |specs| ==> ParentNamed(specs, specs[i].def)
    ensures r.Ok? ==> Filed(specs, r.value)
    ensures r.Err? ==> (r.error.RegisteredTwice? <==> !NamesDistinct(specs))
  {
    var byName: map<string, EntitySpec> := map[];
    for i := 0 to |specs|
      invariant FiledUpTo(specs, byName, i)
    {
      var name := specs[i].def.name;
      if name in byName {
        NameTaken(specs, byName, i);
        return Err(RegisteredTwice(name));
      }
      FiledMore(specs, byName, i);
      byName := byName[name := specs[i]];
    }
    assert specs[..|specs|] == specs;
    for i := 0 to |specs|
      invariant forall j :: 0 <= j < i ==> ParentNamed(specs, specs[j].def)
    {
      var parent := specs[i].def.parent;
      if parent.Some? {
        FiledIsNamed(specs, byName, parent.value.name);
        if parent.value.name !in byName { return Err(UnregisteredParent(specs[i].def.name)); }
      }
    }
    return Ok(byName);
  }

  /** Registered types pass the checks every other module relies on. */
  lemma RegisteredIsChecked(specs: seq<EntitySpec>, byName: map<string, EntitySpec>, depth: map<string, nat>,
          height: nat)
    requires NamesDistinct(specs) && Filed(specs, byName)
    requires forall i :: 0 <= i < |specs| ==> ParentNamed(specs, specs[i].def)
    ensures Registry(specs, byName, depth, height).Checked()
  {
    forall n | n in byName && byName[n].def.parent.Some? ensures byName[n].def.parent.value.name in byName {
      var i :| 0 <= i < |specs| && specs[i].def.name == n;
      assert ParentNamed(specs, specs[i].def);
      FiledIsNamed(specs, byName, byName[n].def.parent.value.name);
    }
  }
}
