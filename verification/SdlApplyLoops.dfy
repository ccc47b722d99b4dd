// The loops of internal/deploymentconfig/apply.go. Every loop over a Go map
// picks its next key arbitrarily, so each `ensures` below holds for every
// iteration order: verdict and result are functions of document and patch.
module SdlApplyLoops {
  import opened Basics
  import opened SdlDocument
  import opened SdlApply
  import opened SdlValidateLoops

  method KeepEntries(source: seq<Value>, patch: map<string, Option<string>>) returns (values: seq<Value>)
    ensures values == KeptEnv(source, patch)
  {
    hide EnvUntouched;
    values := [];
    for i := 0 to |source|
      invariant values + KeptEnv(source[i..], patch) == KeptEnv(source, patch)
    {
      assert source[i..][1..] == source[i + 1..];
      if EnvUntouched(source[i], patch) {
        values := values + [source[i]];
      }
    }
  }

  method ListKeys(patch: map<string, Option<string>>) returns (keys: seq<string>)
    ensures multiset(keys) == multiset(patch.Keys)
  {
    keys := [];
    var todo := patch.Keys;
    while todo != {}
      invariant todo <= patch.Keys
      invariant multiset(keys) == multiset(patch.Keys - todo)
      decreases |todo|
    {
      var key :| key in todo;
      assert patch.Keys - (todo - {key}) == (patch.Keys - todo) + {key};
      todo := todo - {key};
      keys := keys + [key];
    }
    assert patch.Keys - {} == patch.Keys;
  }

  method AddEntries(kept: seq<Value>, keys: seq<string>, patch: map<string,
                    Option<string>>) returns (values: seq<Value>)
    requires forall k :: k in keys ==> k in patch
    ensures values == kept + AddedEnv(keys, patch)
  {
    values := kept;
    for i := 0 to |keys|
      invariant values + AddedEnv(keys[i..], patch) == kept + AddedEnv(keys, patch)
    {
      assert keys[i..][1..] == keys[i + 1..];
      if patch[keys[i]].Some? {
        values := values + [Str(EnvEntry(keys[i], patch[keys[i]]))];
      }
    }
  }

  method EditEnv(service: Fields, patch: map<string, Option<string>>) returns (r: Fields)
    requires patch != map[]
    ensures r == ApplyEnv(service, patch)
  {
    var values := KeepEntries(ArrOf(Get(service, "env")), patch);
    var keys := ListKeys(patch);
    SortOfKeys(keys, patch.Keys);
    SortedKeysMembers(patch.Keys);
    keys := Sort(keys);
    values := AddEntries(values, keys, patch);
    r := WriteEnv(service, values);
  }

  // The inner scan of applyExpose: no endpoint, or more than one, is an error.
  method FindEndpoint(before: seq<Fields>, key: string) returns (r: Result<nat>)
    ensures r.Ok? ==> r.value < |before| && Addresses(key, before[r.value])
                      && forall j :: 0 <= j < |before| && Addresses(key, before[j]) ==> j == r.value
    ensures r.Err? ==> !AddressesOne(key, before)
  {
    var index: int := -1;
    for i := 0 to |before|
      invariant -1 <= index < i
      invariant index == -1 ==> forall j :: 0 <= j < i ==> !Addresses(key, before[j])
      invariant index != -1 ==> Addresses(key, before[index])
                                && forall j :: 0 <= j < i && Addresses(key, before[j]) ==> j == index
    {
      if Addresses(key, before[i]) {
        if index != -1 { return Err; }
        index := i;
      }
    }
    if index == -1 { return Err; }
    return Ok(index);
  }

  // The endpoint's patch has been taken up by the loop over the patch map.
  predicate TakenUp(entry: Fields, patch: map<string, ExposePatch>, todo: set<string>) {
    PatchFor(entry, patch).Some? && Get(entry, "port").text !in todo
  }

  ghost predicate MovesDone(before: seq<Fields>, after: seq<Fields>, changed: map<nat, ExposePatch>,
                            patch: map<string, ExposePatch>, todo: set<string>)
  {
    && |after| == |before|
    && (forall i :: i in changed <==> 0 <= i < |before| && TakenUp(before[i], patch, todo))
    && (forall i :: i in changed ==> changed[i] == PatchFor(before[i], patch).value)
    && (forall i :: 0 <= i < |before| ==>
          after[i] == if TakenUp(before[i], patch, todo) then Moved(before[i], patch) else before[i])
  }

  predicate AllAddressed(before: seq<Fields>, patch: map<string, ExposePatch>) {
    forall key :: key in patch ==> AddressesOne(key, before)
  }

  predicate MovesAllowed(before: seq<Fields>, patch: map<string, ExposePatch>) {
    forall i :: 0 <= i < |before| && PatchFor(before[i], patch).Some? ==>
      MoveAllowed(before[i], Moved(before[i], patch))
  }

  ghost predicate HasCollision(before: seq<Fields>, after: seq<Fields>, changed: map<nat, ExposePatch>)
    requires |after| == |before| && forall i :: i in changed ==> i < |before|
  {
    exists i, j :: i in changed && 0 <= j < |after| && j != i && Collides(changed[i], before[i], after[i], after[j])
  }

  // Taking up one key: its endpoint moves, from its original ports, and no
  // other endpoint's standing changes.
  lemma MoveStep(before: seq<Fields>, after: seq<Fields>, changed: map<nat, ExposePatch>,
                 patch: map<string, ExposePatch>, todo: set<string>, key: string, index: nat)
    requires MovesDone(before, after, changed, patch, todo) && key in todo && key in patch
    requires index < |before| && Addresses(key, before[index])
    requires forall j :: 0 <= j < |before| && Addresses(key, before[j]) ==> j == index
    ensures MovesDone(before, after[index := MovePorts(after[index], patch[key])], changed[index := patch[key]],
                      patch, todo - {key})
    ensures MovePorts(after[index], patch[key]) == Moved(before[index], patch) && PatchFor(before[index], patch).Some?
    ensures forall i :: 0 <= i < |before| && i != index ==>
              TakenUp(before[i], patch, todo - {key}) == TakenUp(before[i], patch, todo)
  {
    hide MovePorts;
  }

  method MoveEndpoints(before: seq<Fields>, patch: map<string, ExposePatch>)
    returns (ok: bool, after: seq<Fields>, changed: map<nat, ExposePatch>)
    ensures ok ==> MovesDone(before, after, changed, patch, {})
    ensures ok <==> AllAddressed(before, patch) && MovesAllowed(before, patch)
  {
    hide MoveAllowed, MovePorts, Moved;
    after, changed := before, map[];
    var todo := patch.Keys;
    while todo != {}
      invariant todo <= patch.Keys
      invariant MovesDone(before, after, changed, patch, todo)
      invariant forall key :: key in patch && key !in todo ==> AddressesOne(key, before)
      invariant forall i :: 0 <= i < |before| && TakenUp(before[i], patch, todo) ==>
                  MoveAllowed(before[i], Moved(before[i], patch))
      decreases |todo|
    {
      var key :| key in todo;
      var found := FindEndpoint(before, key);
      if found.Err? { return false, after, changed; }
      var index := found.value;
      MoveStep(before, after, changed, patch, todo, key, index);
      todo := todo - {key};
      changed := changed[index := patch[key]];
      after := after[index := MovePorts(after[index], patch[key])];
      if !MoveAllowed(before[index], after[index]) {
        return false, after, changed;
      }
    }
    ok := true;
  }

  method FindCollision(before: seq<Fields>, after: seq<Fields>, changed: map<nat, ExposePatch>) returns (found: bool)
    requires |after| == |before| && forall i :: i in changed ==> i < |before|
    ensures found <==> HasCollision(before, after, changed)
  {
    var todo := changed.Keys;
    while todo != {}
      invariant todo <= changed.Keys
      invariant forall i, j :: i in changed && i !in todo && 0 <= j < |after| && j != i ==>
                  !Collides(changed[i], before[i], after[i], after[j])
      decreases |todo|
    {
      var i :| i in todo;
      todo := todo - {i};
      for j := 0 to |after|
        invariant forall k :: 0 <= k < j && k != i ==> !Collides(changed[i], before[i], after[i], after[k])
      {
        if i != j && Collides(changed[i], before[i], after[i], after[j]) { return true; }
      }
    }
    return false;
  }

  lemma ChangedCollides(i: nat, before: seq<Fields>, after: seq<Fields>, changed: map<nat, ExposePatch>,
                        patch: map<string, ExposePatch>)
    requires MovesDone(before, after, changed, patch, {}) && i in changed
    ensures CollisionFree(i, before, patch, changed[i]) <==>
              forall j :: 0 <= j < |after| && j != i ==> !Collides(changed[i], before[i], after[i], after[j])
  {
    forall k | 0 <= k < |before| ensures after[k] == Moved(before[k], patch) {
      assert TakenUp(before[k], patch, {}) <==> PatchFor(before[k], patch).Some?;
    }
  }

  lemma NoCollisions(before: seq<Fields>, after: seq<Fields>, changed: map<nat, ExposePatch>, patch: map<string,
                     ExposePatch>)
    requires MovesDone(before, after, changed, patch, {})
    ensures !HasCollision(before, after, changed) <==>
              forall i :: i in changed ==> i < |before| && CollisionFree(i, before, patch, changed[i])
  {
    forall i | i in changed
      ensures CollisionFree(i, before, patch, changed[i]) <==>
                forall j :: 0 <= j < |after| && j != i ==> !Collides(changed[i], before[i], after[i], after[j])
    {
      ChangedCollides(i, before, after, changed, patch);
    }
  }

  // The two checks together are exactly ExposeAllowed.
  lemma ChecksAreExact(before: seq<Fields>, after: seq<Fields>, changed: map<nat, ExposePatch>, patch: map<string,
                       ExposePatch>)
    requires MovesDone(before, after, changed, patch, {})
    requires AllAddressed(before, patch) && MovesAllowed(before, patch)
    ensures ExposeAllowed(before, patch) <==> !HasCollision(before, after, changed)
  {
    NoCollisions(before, after, changed, patch);
    forall i | 0 <= i < |before|
      ensures EntryAllowed(i, before, patch) <==> (i in changed ==> CollisionFree(i, before, patch, changed[i]))
    {
      assert TakenUp(before[i], patch, {}) <==> PatchFor(before[i], patch).Some?;
    }
  }

  lemma MovesWereAllowed(before: seq<Fields>, patch: map<string, ExposePatch>)
    requires ExposeAllowed(before, patch)
    ensures AllAddressed(before, patch) && MovesAllowed(before, patch)
  {
    forall i | 0 <= i < |before| && PatchFor(before[i], patch).Some?
      ensures MoveAllowed(before[i], Moved(before[i], patch))
    {
      assert EntryAllowed(i, before, patch);
    }
  }

  method CheckEndpoints(before: seq<Fields>, patch: map<string, ExposePatch>)
    returns (ok: bool, after: seq<Fields>, changed: map<nat, ExposePatch>)
    ensures ok <==> ExposeAllowed(before, patch)
    ensures ok ==> MovesDone(before, after, changed, patch, {})
  {
    ok, after, changed := MoveEndpoints(before, patch);
    if !ok {
      if ExposeAllowed(before, patch) { MovesWereAllowed(before, patch); }
      return;
    }
    ChecksAreExact(before, after, changed, patch);
    var collision := FindCollision(before, after, changed);
    ok := !collision;
  }

  method WriteEndpoints(exposed: seq<Value>, after: seq<Fields>, changed: map<nat, ExposePatch>) returns (r: seq<Value>)
    requires |after| == |exposed| && forall i :: i in changed ==> i < |exposed|
    ensures |r| == |exposed|
    ensures forall i :: 0 <= i < |r| ==> r[i] == if i in changed then Obj(WriteOptions(after[i], changed[i]))
            else exposed[i]
  {
    r := exposed;
    var todo := changed.Keys;
    while todo != {}
      invariant todo <= changed.Keys && |r| == |exposed|
      invariant forall i :: 0 <= i < |r| ==>
                  r[i] == if i in changed && i !in todo then Obj(WriteOptions(after[i], changed[i])) else exposed[i]
      decreases |todo|
    {
      var i :| i in todo;
      todo := todo - {i};
      r := r[i := Obj(WriteOptions(after[i], changed[i]))];
    }
  }

  lemma WrittenIsEdited(exposed: seq<Value>, before: seq<Fields>, after: seq<Fields>, changed: map<nat, ExposePatch>,
                        patch: map<string, ExposePatch>, r: seq<Value>)
    requires AllObjects(exposed) && before == Entries(exposed) && |r| == |exposed|
    requires MovesDone(before, after, changed, patch, {})
    requires forall i :: 0 <= i < |r| ==> r[i] == if i in changed then Obj(WriteOptions(after[i], changed[i]))
             else exposed[i]
    ensures Arr(r) == EditedExpose(before, patch)
  {
    forall i | 0 <= i < |r| ensures r[i] == Obj(EditedEntry(before[i], patch)) {
      assert TakenUp(before[i], patch, {}) <==> PatchFor(before[i], patch).Some?;
    }
  }

  method EditExpose(service: Fields, patch: map<string, ExposePatch>) returns (r: Result<Fields>)
    ensures r == ApplyExpose(service, patch)
  {
    if patch == map[] { return Ok(service); }
    var exposed := ArrOf(Get(service, "expose"));
    var before: seq<Fields> := [];
    for i := 0 to |exposed|
      invariant |before| == i
      invariant forall k :: 0 <= k < i ==> exposed[k].Obj? && before[k] == exposed[k].fields
    {
      if !exposed[i].Obj? { return Err; }
      before := before + [exposed[i].fields];
    }
    assert before == Entries(exposed);
    var ok, after, changed := CheckEndpoints(before, patch);
    if !ok { return Err; }
    var written := WriteEndpoints(exposed, after, changed);
    WrittenIsEdited(exposed, before, after, changed, patch, written);
    return Ok(service["expose" := Arr(written)]);
  }

  method EditStorage(service: Fields, patch: map<string, StoragePatch>) returns (r: Result<Fields>)
    ensures r == ApplyStorage(service, patch)
  {
    var volumes := Volumes(service);
    var storage := volumes;
    var todo := patch.Keys;
    while todo != {}
      invariant todo <= patch.Keys
      invariant storage.Keys == volumes.Keys
      invariant forall name :: name in patch && name !in todo ==> Get(volumes, name).Obj?
      invariant forall name :: name in volumes ==>
                  storage[name] == if name in patch && name !in todo
                                   then Obj(EditedVolume(ObjOf(volumes[name]), patch[name])) else volumes[name]
      decreases |todo|
    {
      var name :| name in todo;
      todo := todo - {name};
      if !Get(storage, name).Obj? { return Err; }
      storage := storage[name := Obj(EditedVolume(storage[name].fields, patch[name]))];
    }
    if patch == map[] { return Ok(service); }
    assert storage == EditedVolumes(volumes, patch);
    return Ok(WriteVolumes(service, storage));
  }

  method EditService(service: Fields, change: ServicePatch) returns (r: Result<Fields>)
    ensures r == ApplyService(service, change)
  {
    var s := WritePlain(service, change);
    if change.env != map[] {
      s := EditEnv(s, change.env);
    }
    var exposed := EditExpose(s, change.expose);
    if exposed.Err? { return Err; }
    r := EditStorage(exposed.value, change.storage);
  }

  method ApplyPatch(document: Fields, patch: Patch) returns (r: Result<Fields>)
    ensures r == Apply(document, patch)
  {
    hide Validate, ApplyService;
    var valid := CheckPatch(patch);
    if !valid || !Get(document, "services").Obj? { return Err; }
    var original := document["services"].fields;
    var services := original;
    var todo := patch.Keys;
    while todo != {}
      invariant todo <= patch.Keys
      invariant services.Keys == original.Keys
      invariant forall name :: name in patch && name !in todo ==> ServiceAccepts(original, name, patch)
      invariant forall name :: name in original ==>
                  services[name] == if name in todo then original[name] else PatchedService(original, name, patch)
      decreases |todo|
    {
      var name :| name in todo;
      if !Get(services, name).Obj? {
        assert !ServiceAccepts(original, name, patch);
        return Err;
      }
      var edited := EditService(services[name].fields, patch[name]);
      if edited.Err? {
        assert !ServiceAccepts(original, name, patch);
        return Err;
      }
      assert ServiceAccepts(original, name, patch);
      todo := todo - {name};
      services := services[name := Obj(edited.value)];
    }
    assert services == map name | name in original :: PatchedService(original, name, patch);
    return Ok(document["services" := Obj(services)]);
  }
}
