// Parsed SDL documents and the patches that edit them
// (internal/deploymentconfig/patch.go).
module SdlDocument {
  import opened Basics

  // A parsed YAML or JSON tree. A number stands for the float64 whose shortest
  // decimal text is `text`, which is how ports are matched against patch keys.
  datatype Value =
    | Null
    | Bool(b: bool)
    | Num(text: string)
    | Str(s: string)
    | Arr(items: seq<Value>)
    | Obj(fields: map<string, Value>)

  type Fields = map<string, Value>

  // Go reads an absent map entry as nil, so absence and null look alike.
  function Get(m: Fields, key: string): Value {
    if key in m then m[key] else Null
  }

  // Failed type assertions yield an empty map or slice.
  function ObjOf(v: Value): Fields {
    if v.Obj? then v.fields else map[]
  }

  function ArrOf(v: Value): seq<Value> {
    if v.Arr? then v.items else []
  }

  type uint32 = n: nat | n < 0x1_0000_0000

  function Number(n: nat): Value {
    Num(Decimal(n))
  }

  function Strings(s: seq<string>): Value {
    Arr(seq(|s|, i requires 0 <= i < |s| => Str(s[i])))
  }

  // ------------------------------------------------------------------ patches

  datatype HttpOptionsPatch = HttpOptionsPatch(
    maxBodySize: Option<uint32>, readTimeout: Option<uint32>, sendTimeout: Option<uint32>,
    nextTries: Option<uint32>, nextTimeout: Option<uint32>, nextCases: Option<seq<string>>)

  datatype ExposePatch = ExposePatch(
    port: Option<uint32>, external: Option<uint32>,
    accept: Option<seq<string>>, httpOptions: Option<HttpOptionsPatch>)

  datatype StoragePatch = StoragePatch(mount: Option<string>, readOnly: Option<bool>)

  // A clearable field is absent (None), cleared (Some(Null)) or replaced.
  datatype ServicePatch = ServicePatch(
    image: Option<string>,
    command: Option<Value>, args: Option<Value>,
    env: map<string, Option<string>>,
    credentials: Option<Value>,
    expose: map<string, ExposePatch>,
    storage: map<string, StoragePatch>)

  type Patch = map<string, ServicePatch>

  const NoChange: ServicePatch := ServicePatch(None, None, None, map[], None, map[], map[])

  // --------------------------------------------------------------- validation

  predicate ValidStrings(raw: Option<Value>) {
    raw.Some? && !raw.value.Null? ==>
      raw.value.Arr? && forall i :: 0 <= i < |raw.value.items| ==> raw.value.items[i].Str?
  }

  predicate ValidCredentials(raw: Option<Value>) {
    raw.Some? && !raw.value.Null? ==>
      && raw.value.Obj?
      && raw.value.fields.Keys == {"host", "username", "password"}
      && forall k :: k in raw.value.fields ==> raw.value.fields[k].Str?
  }

  predicate EnvNameChar(c: char) {
    c == '-' || c == '.' || c == '_' || 'a' <= c <= 'z' || 'A' <= c <= 'Z'
  }

  predicate ValidEnvName(name: string) {
    && name != []
    && forall i :: 0 <= i < |name| ==> EnvNameChar(name[i]) || (i > 0 && '0' <= name[i] <= '9')
  }

  predicate ValidPort(port: Option<uint32>) {
    port.Some? ==> 1 <= port.value <= 65535
  }

  const CONDITIONS: set<string> :=
    {"error", "timeout", "500", "502", "503", "504", "403", "404", "429", "off"}

  predicate ValidOptions(o: HttpOptionsPatch) {
    && (o.maxBodySize.Some? ==> 1 <= o.maxBodySize.value <= 104857600)
    && (o.readTimeout.Some? ==> o.readTimeout.value != 0)
    && (o.sendTimeout.Some? ==> o.sendTimeout.value != 0)
    && (o.nextCases.Some? ==>
          && o.nextCases.value != []
          && (forall i :: 0 <= i < |o.nextCases.value| ==> o.nextCases.value[i] in CONDITIONS)
          && ("off" in o.nextCases.value ==> |o.nextCases.value| == 1))
  }

  predicate ValidExpose(e: ExposePatch) {
    ValidPort(e.port) && ValidPort(e.external) && (e.httpOptions.Some? ==> ValidOptions(e.httpOptions.value))
  }

  predicate ValidService(s: ServicePatch) {
    && ValidStrings(s.command) && ValidStrings(s.args) && ValidCredentials(s.credentials)
    && (forall name :: name in s.env ==> ValidEnvName(name))
    && (forall key :: key in s.expose ==> ValidExpose(s.expose[key]))
  }

  predicate Validate(p: Patch) {
    forall name :: name in p ==> ValidService(p[name])
  }

  // ------------------------------------------------------------- environment

  // strings.Cut(entry, "=")
  function EnvName(entry: string): string {
    if entry == [] || entry[0] == '=' then [] else [entry[0]] + EnvName(entry[1..])
  }

  function EnvContent(entry: string): Option<string> {
    if entry == [] then None
    else if entry[0] == '=' then Some(entry[1..])
    else EnvContent(entry[1..])
  }

  function EnvEntry(name: string, content: Option<string>): string {
    if content.None? then name else name + "=" + content.value
  }

  lemma {:induction false} EnvEntrySplits(entry: string)
    ensures EnvEntry(EnvName(entry), EnvContent(entry)) == entry
    ensures '=' !in EnvName(entry)
  {
    if entry != [] && entry[0] != '=' {
      EnvEntrySplits(entry[1..]);
      assert entry == [entry[0]] + entry[1..];
      if EnvContent(entry).Some? {
        assert [entry[0]] + EnvName(entry[1..]) + "=" + EnvContent(entry).value
            == [entry[0]] + (EnvName(entry[1..]) + "=" + EnvContent(entry).value);
      }
    }
  }

  lemma {:induction false} EnvEntryJoins(name: string, content: string)
    requires '=' !in name
    ensures EnvName(EnvEntry(name, Some(content))) == name
    ensures EnvContent(EnvEntry(name, Some(content))) == Some(content)
  {
    var entry := name + "=" + content;
    if name != [] {
      EnvEntryJoins(name[1..], content);
      assert entry[1..] == name[1..] + "=" + content;
      assert name == [name[0]] + name[1..];
    } else {
      assert entry[1..] == content;
    }
  }

  lemma ValidEnvNameHasNoSeparator(name: string)
    requires ValidEnvName(name)
    ensures '=' !in name
  {
    forall i | 0 <= i < |name| ensures name[i] != '=' {
      assert EnvNameChar(name[i]) || '0' <= name[i] <= '9';
    }
  }
}
