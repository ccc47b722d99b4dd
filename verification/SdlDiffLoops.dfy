// The loops of internal/deploymentconfig/diff.go, again in any map order.
module SdlDiffLoops {
  import opened Basics
  import opened SdlDocument
  import opened SdlApply
  import opened SdlApplyLoops
  import opened SdlDiff

  method CollectEnv(raw: Value) returns (r: Result<map<string, Option<string>>>)
    ensures r == EnvValues(raw)
  {
    if raw.Null? {
      assert EnvMap([]) == map[];
      return Ok(map[]);
    }
    if !raw.Arr? { return Err; }
    var values := raw.items;
    var result: map<string, Option<string>> := map[];
    for i := 0 to |values|
      invariant EnvStrings(values[..i]) && EnvDistinct(values[..i])
      invariant result == EnvMap(values[..i])
    {
      var seen := values[..i];
      assert values[..i + 1] == seen + [values[i]];
      if !values[i].Str? { return Err; }
      var name := EnvName(values[i].s);
      if name in result {
        ghost var e :| e in seen && EnvName(e.s) == name;
        ghost var j :| 0 <= j < i && seen[j] == e;
        assert values[j] == e;
        return Err;
      }
      result := result[name := EnvContent(values[i].s)];
      MapGrows(seen, values[i]);
    }
    assert values[..|values|] == values;
    return Ok(result);
  }

  lemma MapGrows(seen: seq<Value>, v: Value)
    requires EnvStrings(seen) && EnvDistinct(seen) && v.Str? && EnvName(v.s) !in EnvMap(seen)
    ensures EnvStrings(seen + [v]) && EnvDistinct(seen + [v])
    ensures EnvMap(seen + [v]) == EnvMap(seen)[EnvName(v.s) := EnvContent(v.s)]
  {
    var all := seen + [v];
    forall i, j | 0 <= i < j < |all| ensures EnvName(all[i].s) != EnvName(all[j].s) {
      if j == |seen| { assert all[i] in seen; }
    }
    assert forall e :: e in all <==> e in seen || e == v;
  }

  method EnvDifference(before: Value, after: Value) returns (r: Result<map<string, Option<string>>>)
    ensures r == DiffEnv(before, after)
  {
    if before == after { return Ok(map[]); }
    var previous := CollectEnv(before);
    if previous.Err? { return Err; }
    var desired := CollectEnv(after);
    if desired.Err? { return Err; }
    r := CompareEnv(previous.value, desired.value);
  }

  method DroppedNames(was: map<string, Option<string>>, now: map<string, Option<string>>)
    returns (patch: map<string, Option<string>>)
    ensures forall name :: name in patch <==> name in was && name !in now
    ensures forall name :: name in patch ==> patch[name] == None
  {
    patch := map[];
    var todo := was.Keys;
    while todo != {}
      invariant todo <= was.Keys
      invariant forall name :: name in patch <==> name in was && name !in todo && name !in now
      invariant forall name :: name in patch ==> patch[name] == None
      decreases |todo|
    {
      var name :| name in todo;
      todo := todo - {name};
      if name !in now { patch := patch[name := None]; }
    }
  }

  method ChangedNames(dropped: map<string, Option<string>>, was: map<string, Option<string>>, now: map<string,
                      Option<string>>)
    returns (r: Result<map<string, Option<string>>>)
    requires forall name :: name in dropped ==> name !in now
    ensures r.Err? <==> exists name :: name in now && EnvNameChanged(name, was, now) && now[name].None?
    ensures r.Ok? ==> forall name :: name in r.value <==>
              name in dropped || (name in now && EnvNameChanged(name, was, now))
    ensures r.Ok? ==> forall name :: name in r.value ==>
              r.value[name] == if name in now then now[name] else dropped[name]
  {
    hide EnvNameChanged;
    var patch := dropped;
    var todo := now.Keys;
    while todo != {}
      invariant todo <= now.Keys
      invariant forall name :: name in patch <==>
                  name in dropped || (name in now - todo && EnvNameChanged(name, was, now))
      invariant forall name :: name in patch ==> patch[name] == if name in now then now[name] else dropped[name]
      invariant forall name :: name in now - todo && EnvNameChanged(name, was, now) ==> now[name].Some?
      decreases |todo|
    {
      var name :| name in todo;
      if EnvNameChanged(name, was, now) {
        if now[name].None? { return Err; }
        patch := patch[name := now[name]];
      }
      todo := todo - {name};
    }
    return Ok(patch);
  }

  method CompareEnv(was: map<string, Option<string>>, now: map<string, Option<string>>)
    returns (r: Result<map<string, Option<string>>>)
    ensures r == if exists name :: name in now && EnvNameChanged(name, was, now) && now[name].None? then Err
                 else Ok(EnvEdits(was, now))
  {
    var dropped := DroppedNames(was, now);
    r := ChangedNames(dropped, was, now);
    if r.Ok? {
      assert forall name :: name in r.value <==> name in was.Keys + now.Keys && EnvNameChanged(name, was, now);
      assert r.value == EnvEdits(was, now);
    }
  }

  ghost predicate Scanned(before: seq<Fields>, after: seq<Fields>, patch: map<string, ExposePatch>)
    requires |before| == |after|
  {
    EntriesDiffable(before, after) && patch == EntryEdits(before, after)
  }

  lemma DiffableGrows(before: seq<Fields>, after: seq<Fields>, b: Fields, a: Fields)
    requires |before| == |after| && EntriesDiffable(before, after)
    requires EntryChanged(b, a) ==>
               && Get(b, "port").Num? && DiffEntry(b, a).Ok?
               && Get(b, "port").text !in EntryEdits(before, after)
    ensures EntriesDiffable(before + [b], after + [a])
  {
    hide EntryChanged, DiffEntry;
    forall i | 0 <= i < |before| && EntryChanged(before[i], after[i]) && EntryChanged(b, a)
      ensures Get(before[i], "port") != Get(b, "port")
    {
      assert Get(before[i], "port").text in EntryEdits(before, after);
    }
  }

  lemma EditAt(before: seq<Fields>, after: seq<Fields>, i: nat)
    requires |before| == |after| && EntriesDiffable(before, after) && i < |before| && EntryChanged(before[i], after[i])
    ensures Get(before[i], "port").text in EntryEdits(before, after)
    ensures EntryEdits(before, after)[Get(before[i], "port").text] == DiffEntry(before[i], after[i]).value
  {
    hide EntryChanged, DiffEntry;
  }

  lemma EditOf(before: seq<Fields>, after: seq<Fields>, key: string) returns (i: nat)
    requires |before| == |after| && EntriesDiffable(before, after) && key in EntryEdits(before, after)
    ensures i < |before| && EntryChanged(before[i], after[i]) && Get(before[i], "port").text == key
  {
    hide EntryChanged, DiffEntry;
    i :| 0 <= i < |before| && EntryChanged(before[i], after[i]) && Get(before[i], "port").text == key;
  }

  lemma ScanGrows(before: seq<Fields>, after: seq<Fields>, b: Fields, a: Fields, patch: map<string, ExposePatch>)
    requires |before| == |after| && Scanned(before, after, patch)
    requires EntryChanged(b, a) ==>
               Get(b, "port").Num? && DiffEntry(b, a).Ok? && Get(b, "port").text !in patch
    ensures Scanned(before + [b], after + [a],
                    if EntryChanged(b, a) then patch[Get(b, "port").text := DiffEntry(b, a).value] else patch)
  {
    hide EntryChanged, DiffEntry, EntryEdits, EntriesDiffable;
    var bs, cs := before + [b], after + [a];
    var grown := if EntryChanged(b, a) then patch[Get(b, "port").text := DiffEntry(b, a).value] else patch;
    DiffableGrows(before, after, b, a);
    var all := EntryEdits(bs, cs);
    forall key | key in all ensures key in grown && grown[key] == all[key] {
      var i := EditOf(bs, cs, key);
      EditAt(bs, cs, i);
      if i < |before| { EditAt(before, after, i); }
    }
    forall key | key in grown ensures key in all {
      if key in patch {
        var i := EditOf(before, after, key);
        EditAt(bs, cs, i);
      } else {
        EditAt(bs, cs, |before|);
      }
    }
  }

  lemma PrefixDiffable(before: seq<Fields>, after: seq<Fields>, i: nat)
    requires |before| == |after| && i < |before| && EntriesDiffable(before, after)
    ensures EntriesDiffable(before[..i], after[..i])
    ensures EntryChanged(before[i], after[i]) ==>
              && Get(before[i], "port").Num? && DiffEntry(before[i], after[i]).Ok?
              && Get(before[i], "port").text !in EntryEdits(before[..i], after[..i])
  {
    hide EntryChanged, DiffEntry;
  }

  method ExposeDifference(before: Value, after: Value) returns (r: Result<map<string, ExposePatch>>)
    ensures r == DiffExpose(before, after)
  {
    if before == after { return Ok(map[]); }
    if !before.Arr? || !after.Arr? || |before.items| != |after.items| { return Err; }
    if !AllObjects(before.items) || !AllObjects(after.items) { return Err; }
    r := ScanEntries(Entries(before.items), Entries(after.items));
  }

  method ScanEntries(was: seq<Fields>, now: seq<Fields>) returns (r: Result<map<string, ExposePatch>>)
    requires |was| == |now|
    ensures r == if EntriesDiffable(was, now) then Ok(EntryEdits(was, now)) else Err
  {
    hide EntryChanged, DiffEntry;
    var patch: map<string, ExposePatch> := map[];
    assert Scanned(was[..0], now[..0], patch);
    for i := 0 to |was|
      invariant Scanned(was[..i], now[..i], patch)
    {
      assert was[..i + 1] == was[..i] + [was[i]] && now[..i + 1] == now[..i] + [now[i]];
      if EntriesDiffable(was, now) { PrefixDiffable(was, now, i); }
      if EntryChanged(was[i], now[i]) {
        if !Get(was[i], "port").Num? { return Err; }
        var key := Get(was[i], "port").text;
        if key in patch { return Err; }
        var fields := DiffEntry(was[i], now[i]);
        if fields.Err? { return Err; }
        ScanGrows(was[..i], now[..i], was[i], now[i], patch);
        patch := patch[key := fields.value];
      } else {
        ScanGrows(was[..i], now[..i], was[i], now[i], patch);
      }
    }
    assert was[..|was|] == was && now[..|now|] == now;
    return Ok(patch);
  }

  method StorageDifference(before: Fields, after: Fields) returns (r: Result<map<string, StoragePatch>>)
    ensures r == DiffStorage(before, after)
  {
    hide VolumeChanged, DiffVolume;
    var was, now := Volumes(before), Volumes(after);
    var patch: map<string, StoragePatch> := map[];
    var todo := now.Keys;
    while todo != {}
      invariant todo <= now.Keys
      invariant forall name :: name in now && name !in todo ==> VolumeDiffable(name, was, now)
      invariant forall name :: name in patch <==>
                  name in now && name !in todo && VolumeChanged(Get(was, name).fields, Get(now, name).fields)
      invariant forall name :: name in patch ==>
                  patch[name] == DiffVolume(Get(was, name).fields, Get(now, name).fields).value
      decreases |todo|
    {
      var name :| name in todo;
      if !VolumeDiffable(name, was, now) { return Err; }
      todo := todo - {name};
      if VolumeChanged(Get(was, name).fields, Get(now, name).fields) {
        patch := patch[name := DiffVolume(Get(was, name).fields, Get(now, name).fields).value];
      }
    }
    assert DiffStorage(before, after).Ok? && patch == DiffStorage(before, after).value;
    return Ok(patch);
  }

  method ServiceDifference(before: Fields, after: Fields) returns (r: Result<ServicePatch>)
    ensures r == DiffService(before, after)
  {
    var image := DiffImage(Get(before, "image"), Get(after, "image"));
    if image.Err? { return Err; }
    var credentials := DiffCredentials(Get(before, "credentials"), Get(after, "credentials"));
    if credentials.Err? { return Err; }
    var env := EnvDifference(Get(before, "env"), Get(after, "env"));
    if env.Err? { return Err; }
    var expose := ExposeDifference(Get(before, "expose"), Get(after, "expose"));
    if expose.Err? { return Err; }
    var storage := StorageDifference(before, after);
    if storage.Err? { return Err; }
    return Ok(ServicePatch(image.value, DiffClearable(Get(before, "command"), Get(after, "command")),
                           DiffClearable(Get(before, "args"), Get(after, "args")),
                           env.value, credentials.value, expose.value, storage.value));
  }

  method Normalize(document: Fields) returns (r: Fields)
    ensures r == Normal(document)
  {
    hide NormalService;
    if !Get(document, "services").Obj? { return document; }
    var original := document["services"].fields;
    var services := original;
    var todo := original.Keys;
    while todo != {}
      invariant todo <= original.Keys && services.Keys == original.Keys
      invariant forall name :: name in original ==>
                  services[name] == if name !in todo
                    && original[name].Obj? then Obj(NormalService(original[name].fields))
                                    else original[name]
      decreases |todo|
    {
      var name :| name in todo;
      todo := todo - {name};
      if services[name].Obj? {
        services := services[name := Obj(NormalService(services[name].fields))];
      }
    }
    assert services == NormalServices(original);
    return document["services" := Obj(services)];
  }

  method DiffServices(was: Fields, now: Fields) returns (r: Result<Patch>)
    ensures r == if exists name :: name in now && !ServiceDiffable(was, now, name) then Err
                 else Ok(ServiceEdits(was, now))
  {
    hide DiffService;
    var patch: Patch := map[];
    var todo := now.Keys;
    while todo != {}
      invariant todo <= now.Keys
      invariant forall name :: name in now && name !in todo ==> ServiceDiffable(was, now, name)
      invariant forall name :: name in patch <==>
                  name in now && name !in todo && ServiceEdit(was, now, name) != NoChange
      invariant forall name :: name in patch ==> patch[name] == ServiceEdit(was, now, name)
      decreases |todo|
    {
      var name :| name in todo;
      if !Get(was, name).Obj? || !Get(now, name).Obj? {
        assert !ServiceDiffable(was, now, name);
        return Err;
      }
      var service := ServiceDifference(was[name].fields, now[name].fields);
      if service.Err? {
        assert !ServiceDiffable(was, now, name);
        return Err;
      }
      assert ServiceDiffable(was, now, name);
      todo := todo - {name};
      if service.value != NoChange { patch := patch[name := service.value]; }
    }
    assert patch == ServiceEdits(was, now);
    return Ok(patch);
  }

  method DiffDocuments(current: Fields, requested: Fields) returns (r: Result<Patch>)
    ensures r == Diff(current, requested)
  {
    hide ServiceDiffable, Normal, Validate;
    if !Get(current, "services").Obj? || !Get(requested, "services").Obj? { return Err; }
    var candidate := DiffServices(current["services"].fields, requested["services"].fields);
    if candidate.Err? { return Err; }
    var applied := ApplyPatch(current, candidate.value);
    if applied.Err? { return Err; }
    var a := Normalize(applied.value);
    var b := Normalize(requested);
    if a != b { return Err; }
    return candidate;
  }
}
