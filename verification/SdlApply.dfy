// What a patch does to a parsed SDL (internal/deploymentconfig/apply.go),
// stated pointwise and without any iteration order.
module SdlApply {
  import opened Basics
  import opened SdlDocument

  // ------------------------------------------------------------ plain fields

  function WriteClearable(service: Fields, name: string, raw: Option<Value>): Fields {
    if raw.None? then service
    else if raw.value.Null? then service - {name}
    else service[name := raw.value]
  }

  function WriteCredentials(service: Fields, raw: Option<Value>): Fields {
    if raw.None? then service
    else if raw.value.Null? then service - {"credentials"}
    else service["credentials" := Obj(ObjOf(Get(service, "credentials")) + ObjOf(raw.value))]
  }

  function WritePlain(service: Fields, change: ServicePatch): Fields {
    var s := if change.image.Some? then service["image" := Str(change.image.value)] else service;
    WriteCredentials(WriteClearable(WriteClearable(s, "command", change.command), "args", change.args),
      change.credentials)
  }

  // ------------------------------------------------------------- environment

  predicate EnvUntouched(entry: Value, patch: map<string, Option<string>>) {
    entry.Str? ==> EnvName(entry.s) !in patch
  }

  function KeptEnv(entries: seq<Value>, patch: map<string, Option<string>>): seq<Value> {
    if entries == [] then []
    else (if EnvUntouched(entries[0], patch) then [entries[0]] else []) + KeptEnv(entries[1..], patch)
  }

  function AddedEnv(keys: seq<string>, patch: map<string, Option<string>>): seq<Value>
    requires forall k :: k in keys ==> k in patch
  {
    if keys == [] then []
    else (if patch[keys[0]].Some? then [Str(EnvEntry(keys[0], patch[keys[0]]))] else []) + AddedEnv(keys[1..], patch)
  }

  lemma SortedKeysMembers(keys: set<string>)
    ensures forall k :: k in SortedKeys(keys) <==> k in keys
  {
    forall k ensures k in SortedKeys(keys) <==> k in keys {
      assert k in SortedKeys(keys) <==> k in multiset(SortedKeys(keys));
    }
  }

  ghost function EditedEnv(entries: seq<Value>, patch: map<string, Option<string>>): seq<Value> {
    SortedKeysMembers(patch.Keys);
    KeptEnv(entries, patch) + AddedEnv(SortedKeys(patch.Keys), patch)
  }

  function WriteEnv(service: Fields, values: seq<Value>): Fields {
    if values == [] then service - {"env"} else service["env" := Arr(values)]
  }

  ghost function ApplyEnv(service: Fields, patch: map<string, Option<string>>): Fields {
    if patch == map[] then service else WriteEnv(service, EditedEnv(ArrOf(Get(service, "env")), patch))
  }

  // --------------------------------------------------------------- endpoints

  function ExternalPort(entry: Fields): string {
    var external := Get(entry, "as");
    if external.Num? && external.text != "0" then external.text
    else if Get(entry, "port").Num? then Get(entry, "port").text
    else "0"
  }

  datatype Kind = Http | RandomPort | Internal

  predicate IsTcp(proto: string) {
    |proto| == 3 && proto[0] in {'t', 'T'} && proto[1] in {'c', 'C'} && proto[2] in {'p', 'P'}
  }

  predicate IsGlobal(target: Value) {
    Get(ObjOf(target), "global") == Bool(true)
  }

  function Protocol(entry: Fields): string {
    if Get(entry, "proto").Str? then Get(entry, "proto").s else ""
  }

  function EndpointKind(entry: Fields): Kind {
    var targets := ArrOf(Get(entry, "to"));
    if exists i :: 0 <= i < |targets| && IsGlobal(targets[i]) then
      if (Protocol(entry) == "" || IsTcp(Protocol(entry))) && ExternalPort(entry) == "80" then Http else RandomPort
    else Internal
  }

  predicate LeasedTarget(target: Value) {
    var ip := Get(ObjOf(target), "ip");
    ip.Str? && ip.s != ""
  }

  predicate HasLeasedIP(entry: Fields) {
    var targets := ArrOf(Get(entry, "to"));
    exists i :: 0 <= i < |targets| && LeasedTarget(targets[i])
  }

  // A patch key names an endpoint by the decimal text of its original port.
  predicate Addresses(key: string, entry: Fields) {
    Get(entry, "port") == Num(key)
  }

  function PatchFor(entry: Fields, patch: map<string, ExposePatch>): Option<ExposePatch> {
    var port := Get(entry, "port");
    if port.Num? && port.text in patch then Some(patch[port.text]) else None
  }

  function MovePorts(entry: Fields, change: ExposePatch): Fields {
    var e := if change.port.Some? then entry["port" := Number(change.port.value)] else entry;
    if change.external.Some? then e["as" := Number(change.external.value)] else e
  }

  const OPTION_NAMES: set<string> :=
    {"max_body_size", "read_timeout", "send_timeout", "next_tries", "next_timeout", "next_cases"}

  function NumberOr(value: Option<uint32>): Value {
    if value.Some? then Number(value.value) else Null
  }

  // The value a patch assigns to an SDL option, or null when it assigns none.
  function OptionValue(o: HttpOptionsPatch, name: string): Value {
    if name == "max_body_size" then NumberOr(o.maxBodySize)
    else if name == "read_timeout" then NumberOr(o.readTimeout)
    else if name == "send_timeout" then NumberOr(o.sendTimeout)
    else if name == "next_tries" then NumberOr(o.nextTries)
    else if name == "next_timeout" then NumberOr(o.nextTimeout)
    else if name == "next_cases" && o.nextCases.Some? then Strings(o.nextCases.value)
    else Null
  }

  // httpOptionValues
  function OptionValues(o: HttpOptionsPatch): Fields {
    map name | name in OPTION_NAMES && !OptionValue(o, name).Null? :: OptionValue(o, name)
  }

  function WriteAccept(entry: Fields, accept: Option<seq<string>>): Fields {
    if accept.Some? then entry["accept" := Strings(accept.value)] else entry
  }

  function WriteHttp(entry: Fields, options: Option<HttpOptionsPatch>): Fields {
    if options.Some? && OptionValues(options.value) != map[] then
      entry["http_options" := Obj(ObjOf(Get(entry, "http_options")) + OptionValues(options.value))]
    else entry
  }

  function WriteOptions(entry: Fields, change: ExposePatch): Fields {
    WriteHttp(WriteAccept(entry, change.accept), change.httpOptions)
  }

  function Moved(entry: Fields, patch: map<string, ExposePatch>): Fields {
    var change := PatchFor(entry, patch);
    if change.Some? then MovePorts(entry, change.value) else entry
  }

  function EditedEntry(entry: Fields, patch: map<string, ExposePatch>): Fields {
    var change := PatchFor(entry, patch);
    if change.Some? then WriteOptions(MovePorts(entry, change.value), change.value) else entry
  }

  predicate AddressesOne(key: string, before: seq<Fields>) {
    exists i :: 0 <= i < |before| && Addresses(key, before[i])
      && forall j :: 0 <= j < |before| && Addresses(key, before[j]) ==> j == i
  }

  // The endpoint keeps its kind, and a leased IP keeps its ports.
  predicate MoveAllowed(before: Fields, after: Fields) {
    && EndpointKind(before) == EndpointKind(after)
    && (HasLeasedIP(before) ==>
          Get(before, "port") == Get(after, "port") && ExternalPort(before) == ExternalPort(after))
  }

  predicate Collides(change: ExposePatch, before: Fields, after: Fields, other: Fields) {
    || (change.port.Some? && Get(after, "port") == Get(other, "port"))
    || (ExternalPort(before) != ExternalPort(after) && ExternalPort(after) == ExternalPort(other))
  }

  predicate CollisionFree(i: nat, before: seq<Fields>, patch: map<string, ExposePatch>, change: ExposePatch)
    requires i < |before|
  {
    forall j :: 0 <= j < |before| && j != i ==>
      !Collides(change, before[i], Moved(before[i], patch), Moved(before[j], patch))
  }

  predicate EntryAllowed(i: nat, before: seq<Fields>, patch: map<string, ExposePatch>)
    requires i < |before|
  {
    var change := PatchFor(before[i], patch);
    change.Some? ==>
      MoveAllowed(before[i], Moved(before[i], patch)) && CollisionFree(i, before, patch, change.value)
  }

  predicate ExposeAllowed(before: seq<Fields>, patch: map<string, ExposePatch>) {
    && (forall key :: key in patch ==> AddressesOne(key, before))
    && (forall i :: 0 <= i < |before| ==> EntryAllowed(i, before, patch))
  }

  predicate AllObjects(items: seq<Value>) {
    forall i :: 0 <= i < |items| ==> items[i].Obj?
  }

  function Entries(items: seq<Value>): (r: seq<Fields>)
    requires AllObjects(items)
    ensures |r| == |items|
  {
    seq(|items|, i requires 0 <= i < |items| => items[i].fields)
  }

  function EditedExpose(before: seq<Fields>, patch: map<string, ExposePatch>): Value {
    Arr(seq(|before|, i requires 0 <= i < |before| => Obj(EditedEntry(before[i], patch))))
  }

  function ApplyExpose(service: Fields, patch: map<string, ExposePatch>): Result<Fields> {
    var items := ArrOf(Get(service, "expose"));
    if patch == map[] then Ok(service)
    else if AllObjects(items) && ExposeAllowed(Entries(items), patch) then
      Ok(service["expose" := EditedExpose(Entries(items), patch)])
    else Err
  }

  // ------------------------------------------------------------------ volumes

  function Volumes(service: Fields): Fields {
    ObjOf(Get(ObjOf(Get(service, "params")), "storage"))
  }

  function EditedVolume(volume: Fields, change: StoragePatch): Fields {
    var v := if change.mount.Some? then volume["mount" := Str(change.mount.value)] else volume;
    if change.readOnly.Some? then v["readOnly" := Bool(change.readOnly.value)] else v
  }

  function EditedVolumes(volumes: Fields, patch: map<string, StoragePatch>): Fields {
    map name | name in volumes ::
      if name in patch then Obj(EditedVolume(ObjOf(volumes[name]), patch[name])) else volumes[name]
  }

  function WriteVolumes(service: Fields, volumes: Fields): Fields {
    service["params" := Obj(ObjOf(Get(service, "params"))["storage" := Obj(volumes)])]
  }

  function ApplyStorage(service: Fields, patch: map<string, StoragePatch>): Result<Fields> {
    var volumes := Volumes(service);
    if exists name :: name in patch && !Get(volumes, name).Obj? then Err
    else if patch == map[] then Ok(service)
    else Ok(WriteVolumes(service, EditedVolumes(volumes, patch)))
  }

  // ---------------------------------------------------------------- documents

  ghost function ApplyService(service: Fields, change: ServicePatch): Result<Fields> {
    var s := ApplyEnv(WritePlain(service, change), change.env);
    var exposed := ApplyExpose(s, change.expose);
    if exposed.Err? then Err else ApplyStorage(exposed.value, change.storage)
  }

  ghost predicate ServiceAccepts(services: Fields, name: string, patch: Patch)
    requires name in patch
  {
    Get(services, name).Obj? && ApplyService(Get(services, name).fields, patch[name]).Ok?
  }

  ghost function PatchedService(services: Fields, name: string, patch: Patch): Value
    requires name in services
    requires name in patch ==> ServiceAccepts(services, name, patch)
  {
    if name in patch then Obj(ApplyService(services[name].fields, patch[name]).value) else services[name]
  }

  // Apply on an anchor-free document; sharing is checked in YamlSharing.
  ghost function Apply(document: Fields, patch: Patch): Result<Fields> {
    if !Validate(patch) || !Get(document, "services").Obj? then Err
    else
      var services := document["services"].fields;
      if exists name :: name in patch && !ServiceAccepts(services, name, patch) then Err
      else Ok(document["services" := Obj(map name | name in services :: PatchedService(services, name, patch))])
  }
}
