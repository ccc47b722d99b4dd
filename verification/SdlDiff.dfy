// Deriving a patch from two documents (internal/deploymentconfig/diff.go).
module SdlDiff {
  import opened Basics
  import opened SdlDocument
  import opened SdlApply

  // --------------------------------------------- decoding JSON into a patch

  // A JSON number fits a uint32 field when it is a plain decimal in range.
  function ParseUint32(text: string): Option<uint32> {
    if text == [] || exists i :: 0 <= i < |text| && !('0' <= text[i] <= '9') then None
    else if ParseDigits(text) < 0x1_0000_0000 && Decimal(ParseDigits(text)) == text then Some(ParseDigits(text))
    else None
  }

  // null leaves an optional field unset; a value of the wrong type is an error.
  function DecodeUint32(v: Value): Result<Option<uint32>> {
    if v.Null? then Ok(None)
    else if v.Num? && ParseUint32(v.text).Some? then Ok(ParseUint32(v.text))
    else Err
  }

  function DecodeString(v: Value): Result<Option<string>> {
    if v.Null? then Ok(None) else if v.Str? then Ok(Some(v.s)) else Err
  }

  function DecodeBool(v: Value): Result<Option<bool>> {
    if v.Null? then Ok(None) else if v.Bool? then Ok(Some(v.b)) else Err
  }

  // A null element decodes to the empty string.
  function DecodeStrings(v: Value): Result<Option<seq<string>>> {
    if v.Null? then Ok(None)
    else if v.Arr? && forall i :: 0 <= i < |v.items| ==> v.items[i].Str? || v.items[i].Null? then
      Ok(Some(seq(|v.items|, i requires 0 <= i < |v.items| => if v.items[i].Str? then v.items[i].s else "")))
    else Err
  }

  // ------------------------------------------------------------- environment

  predicate EnvStrings(items: seq<Value>) {
    forall i :: 0 <= i < |items| ==> items[i].Str?
  }

  predicate EnvDistinct(items: seq<Value>)
    requires EnvStrings(items)
  {
    forall i, j :: 0 <= i < j < |items| ==> EnvName(items[i].s) != EnvName(items[j].s)
  }

  // A declaration that diff accepts: absent, or distinctly named strings.
  predicate EnvListed(raw: Value) {
    raw.Null? || (raw.Arr? && EnvStrings(raw.items) && EnvDistinct(raw.items))
  }

  function EnvMap(items: seq<Value>): map<string, Option<string>>
    requires EnvStrings(items) && EnvDistinct(items)
  {
    map e | e in items :: EnvName(e.s) := EnvContent(e.s)
  }

  function EnvValues(raw: Value): Result<map<string, Option<string>>> {
    if EnvListed(raw) then Ok(EnvMap(ArrOf(raw))) else Err
  }

  predicate EnvNameChanged(name: string, before: map<string, Option<string>>, after: map<string, Option<string>>) {
    if name in after then name !in before || before[name] != after[name] else name in before
  }

  function EnvEdits(before: map<string, Option<string>>, after: map<string, Option<string>>): map<string,
                    Option<string>> {
    map name | name in before.Keys + after.Keys && EnvNameChanged(name, before, after) ::
      if name in after then after[name] else None
  }

  function DiffEnv(before: Value, after: Value): Result<map<string, Option<string>>> {
    if before == after then Ok(map[])
    else if EnvValues(before).Err? || EnvValues(after).Err? then Err
    else
      var was, now := EnvValues(before).value, EnvValues(after).value;
      // A newly bare name has no value to write.
      if exists name :: name in now && EnvNameChanged(name, was, now) && now[name].None? then Err
      else Ok(EnvEdits(was, now))
  }

  // --------------------------------------------------------------- endpoints

  function DiffUint32(before: Fields, after: Fields, name: string): Result<Option<uint32>> {
    if Get(before, name) == Get(after, name) then Ok(None) else DecodeUint32(Get(after, name))
  }

  function DiffStrings(before: Fields, after: Fields, name: string): Result<Option<seq<string>>> {
    if Get(before, name) == Get(after, name) then Ok(None) else DecodeStrings(Get(after, name))
  }

  function Options(entry: Fields): Fields {
    ObjOf(Get(entry, "http_options"))
  }

  predicate OptionsChanged(before: Fields, after: Fields) {
    exists name :: name in OPTION_NAMES && Get(before, name) != Get(after, name)
  }

  function DiffOptions(before: Fields, after: Fields): Result<Option<HttpOptionsPatch>> {
    var a := DiffUint32(before, after, "max_body_size");
    var b := DiffUint32(before, after, "read_timeout");
    var c := DiffUint32(before, after, "send_timeout");
    var d := DiffUint32(before, after, "next_tries");
    var e := DiffUint32(before, after, "next_timeout");
    var f := DiffStrings(before, after, "next_cases");
    if !OptionsChanged(before, after) then Ok(None)
    else if a.Err? || b.Err? || c.Err? || d.Err? || e.Err? || f.Err? then Err
    else Ok(Some(HttpOptionsPatch(a.value, b.value, c.value, d.value, e.value, f.value)))
  }

  predicate EntryChanged(before: Fields, after: Fields) {
    || Get(before, "port") != Get(after, "port")
    || Get(before, "as") != Get(after, "as")
    || Get(before, "accept") != Get(after, "accept")
    || OptionsChanged(Options(before), Options(after))
  }

  function DiffEntry(before: Fields, after: Fields): Result<ExposePatch> {
    var port := DiffUint32(before, after, "port");
    var external := DiffUint32(before, after, "as");
    var accept := DiffStrings(before, after, "accept");
    var options := DiffOptions(Options(before), Options(after));
    if port.Err? || external.Err? || accept.Err? || options.Err? then Err
    else Ok(ExposePatch(port.value, external.value, accept.value, options.value))
  }

  // Every changed endpoint has a port, no other changed endpoint shares it,
  // and its edits have the right types.
  ghost predicate EntriesDiffable(before: seq<Fields>, after: seq<Fields>)
    requires |before| == |after|
  {
    && (forall i :: 0 <= i < |before| && EntryChanged(before[i], after[i]) ==>
          Get(before[i], "port").Num? && DiffEntry(before[i], after[i]).Ok?)
    && (forall i, j :: 0 <= i < j < |before| && EntryChanged(before[i], after[i])
                       && EntryChanged(before[j], after[j]) ==>
          Get(before[i], "port") != Get(before[j], "port"))
  }

  ghost function EntryEdits(before: seq<Fields>, after: seq<Fields>): map<string, ExposePatch>
    requires |before| == |after| && EntriesDiffable(before, after)
  {
    map i | 0 <= i < |before| && EntryChanged(before[i], after[i]) ::
      Get(before[i], "port").text := DiffEntry(before[i], after[i]).value
  }

  ghost function DiffExpose(before: Value, after: Value): Result<map<string, ExposePatch>> {
    if before == after then Ok(map[])
    else if before.Arr? && after.Arr? && |before.items| == |after.items|
         && AllObjects(before.items) && AllObjects(after.items)
         && EntriesDiffable(Entries(before.items), Entries(after.items)) then
      Ok(EntryEdits(Entries(before.items), Entries(after.items)))
    else Err
  }

  // ------------------------------------------------------------------ volumes

  predicate VolumeChanged(before: Fields, after: Fields) {
    Get(before, "mount") != Get(after, "mount") || Get(before, "readOnly") != Get(after, "readOnly")
  }

  function DiffVolume(before: Fields, after: Fields): Result<StoragePatch> {
    var mount := if Get(before, "mount") == Get(after, "mount") then Ok(None) else DecodeString(Get(after, "mount"));
    var readOnly := if Get(before, "readOnly") == Get(after, "readOnly") then Ok(None)
      else DecodeBool(Get(after, "readOnly"));
    if mount.Err? || readOnly.Err? then Err else Ok(StoragePatch(mount.value, readOnly.value))
  }

  predicate VolumeDiffable(name: string, before: Fields, after: Fields) {
    && Get(before, name).Obj? && Get(after, name).Obj?
    && DiffVolume(Get(before, name).fields, Get(after, name).fields).Ok?
  }

  function DiffStorage(before: Fields, after: Fields): Result<map<string, StoragePatch>> {
    var was, now := Volumes(before), Volumes(after);
    if exists name :: name in now && !VolumeDiffable(name, was, now) then Err
    else Ok(map name | name in now && VolumeChanged(Get(was, name).fields, Get(now, name).fields) ::
              DiffVolume(Get(was, name).fields, Get(now, name).fields).value)
  }

  // ----------------------------------------------------------------- services

  function DiffImage(before: Value, after: Value): Result<Option<string>> {
    if before == after then Ok(None) else if after.Str? then Ok(Some(after.s)) else Err
  }

  function DiffClearable(before: Value, after: Value): Option<Value> {
    if before == after then None else Some(after)
  }

  function DiffCredentials(before: Value, after: Value): Result<Option<Value>> {
    if before == after then Ok(None)
    else if after.Null? then Ok(Some(Null))
    else if after.Obj? then
      Ok(Some(Obj(map["host" := Get(after.fields, "host"), "username" := Get(after.fields, "username"),
                      "password" := Get(after.fields, "password")])))
    else Err
  }

  ghost function DiffService(before: Fields, after: Fields): Result<ServicePatch> {
    var image := DiffImage(Get(before, "image"), Get(after, "image"));
    var credentials := DiffCredentials(Get(before, "credentials"), Get(after, "credentials"));
    var env := DiffEnv(Get(before, "env"), Get(after, "env"));
    var expose := DiffExpose(Get(before, "expose"), Get(after, "expose"));
    var storage := DiffStorage(before, after);
    if image.Err? || credentials.Err? || env.Err? || expose.Err? || storage.Err? then Err
    else Ok(ServicePatch(image.value,
                         DiffClearable(Get(before, "command"), Get(after, "command")),
                         DiffClearable(Get(before, "args"), Get(after, "args")),
                         env.value, credentials.value, expose.value, storage.value))
  }

  // -------------------------------------------------------------- normal form

  // Declaration order of variables, an empty list and null mean the same.
  function NormalEnv(raw: Value): Value {
    if raw.Null? || raw == Arr([]) then Null
    else if raw.Arr? && EnvStrings(raw.items) then Strings(Sort(Texts(raw.items)))
    else raw
  }

  function Texts(items: seq<Value>): (r: seq<string>)
    requires EnvStrings(items)
    ensures |r| == |items|
  {
    seq(|items|, i requires 0 <= i < |items| => items[i].s)
  }

  const CLEARABLE: set<string> := {"command", "args", "credentials"}

  predicate Survives(key: string, v: Value) {
    !(key in CLEARABLE && v.Null?) && !(key == "env" && NormalEnv(v).Null?)
  }

  function NormalService(s: Fields): Fields {
    map k | k in s && Survives(k, s[k]) :: if k == "env" then NormalEnv(s[k]) else s[k]
  }

  function NormalServices(services: Fields): Fields {
    map name | name in services ::
      if services[name].Obj? then Obj(NormalService(services[name].fields)) else services[name]
  }

  // normalizeSDL
  function Normal(document: Fields): Fields {
    if Get(document, "services").Obj? then
      document["services" := Obj(NormalServices(document["services"].fields))]
    else document
  }

  // ---------------------------------------------------------------- documents

  ghost predicate ServiceDiffable(before: Fields, after: Fields, name: string) {
    Get(before, name).Obj? && Get(after, name).Obj?
    && DiffService(Get(before, name).fields, Get(after, name).fields).Ok?
  }

  ghost function ServiceEdit(before: Fields, after: Fields, name: string): ServicePatch
    requires ServiceDiffable(before, after, name)
  {
    DiffService(Get(before, name).fields, Get(after, name).fields).value
  }

  ghost function ServiceEdits(before: Fields, after: Fields): Patch
    requires forall name :: name in after ==> ServiceDiffable(before, after, name)
  {
    map name | name in after && ServiceEdit(before, after, name) != NoChange :: ServiceEdit(before, after, name)
  }

  // The candidate edits, before Diff checks them by applying them.
  ghost function Candidate(current: Fields, requested: Fields): Result<Patch> {
    if !Get(current, "services").Obj? || !Get(requested, "services").Obj? then Err
    else
      var was, now := current["services"].fields, requested["services"].fields;
      if exists name :: name in now && !ServiceDiffable(was, now, name) then Err else Ok(ServiceEdits(was, now))
  }

  ghost function Diff(current: Fields, requested: Fields): Result<Patch> {
    var candidate := Candidate(current, requested);
    if candidate.Err? then Err
    else
      var applied := Apply(current, candidate.value);
      if applied.Ok? && Normal(applied.value) == Normal(requested) then candidate else Err
  }
}
