// The loops that check a patch before it is applied
// (Validate, internal/deploymentconfig/patch.go).
module SdlValidateLoops {
  import opened Basics
  import opened SdlDocument

  method CheckEnvName(name: string) returns (ok: bool)
    ensures ok == ValidEnvName(name)
  {
    if |name| == 0 { return false; }
    for i := 0 to |name|
      invariant forall j :: 0 <= j < i ==> EnvNameChar(name[j]) || (j > 0 && '0' <= name[j] <= '9')
    {
      var c := name[i];
      if c == '-' || c == '.' || c == '_' || ('a' <= c && c <= 'z') || ('A' <= c && c <= 'Z')
         || (i > 0 && '0' <= c && c <= '9') {
        continue;
      }
      return false;
    }
    return true;
  }

  // Arrays of strings, or null.
  method CheckStrings(raw: Option<Value>) returns (ok: bool)
    ensures ok == ValidStrings(raw)
  {
    if raw.None? || raw.value == Null { return true; }
    if !raw.value.Arr? { return false; }
    var values := raw.value.items;
    for i := 0 to |values|
      invariant forall j :: 0 <= j < i ==> values[j].Str?
    {
      if !values[i].Str? { return false; }
    }
    return true;
  }

  // Host, username and password, all strings, and nothing else; or null.
  method CheckCredentials(raw: Option<Value>) returns (ok: bool)
    ensures ok == ValidCredentials(raw)
  {
    if raw.None? || raw.value == Null { return true; }
    if !raw.value.Obj? { return false; }
    var fields := raw.value.fields;
    var todo := fields.Keys;
    while todo != {}
      invariant todo <= fields.Keys
      invariant forall k :: k in fields && k !in todo ==>
                  (k == "host" || k == "username" || k == "password") && fields[k].Str?
      decreases |todo|
    {
      var k :| k in todo;
      if (k != "host" && k != "username" && k != "password") || !fields[k].Str? { return false; }
      todo := todo - {k};
    }
    return "host" in fields && "username" in fields && "password" in fields;
  }

  // The switch over the retry conditions; "off" must stand alone.
  method CheckConditions(values: seq<string>) returns (ok: bool)
    ensures ok <==> && values != []
                    && (forall i :: 0 <= i < |values| ==> values[i] in CONDITIONS)
                    && ("off" in values ==> |values| == 1)
  {
    if |values| == 0 { return false; }
    for i := 0 to |values|
      invariant forall j :: 0 <= j < i ==> values[j] in CONDITIONS && (values[j] == "off" ==> |values| == 1)
    {
      match values[i] {
        case "error" => case "timeout" =>
        case "500" => case "502" => case "503" => case "504" =>
        case "403" => case "404" => case "429" =>
        case "off" =>
          if |values| != 1 { return false; }
        case _ => return false;
      }
    }
    return true;
  }

  method CheckOptions(o: HttpOptionsPatch) returns (ok: bool)
    ensures ok == ValidOptions(o)
  {
    if o.maxBodySize.Some? && (o.maxBodySize.value == 0 || o.maxBodySize.value > 104857600) { return false; }
    if o.readTimeout.Some? && o.readTimeout.value == 0 { return false; }
    if o.sendTimeout.Some? && o.sendTimeout.value == 0 { return false; }
    if o.nextCases.None? { return true; }
    ok := CheckConditions(o.nextCases.value);
  }

  method CheckEndpoint(e: ExposePatch) returns (ok: bool)
    ensures ok == ValidExpose(e)
  {
    hide ValidOptions;
    var ports := [e.port, e.external];
    for i := 0 to |ports|
      invariant forall j :: 0 <= j < i ==> ValidPort(ports[j])
    {
      if ports[i].Some? && (ports[i].value == 0 || ports[i].value > 65535) {
        assert !ValidPort(ports[i]);
        return false;
      }
    }
    assert ValidPort(ports[0]) && ValidPort(ports[1]);
    if e.httpOptions.None? { return true; }
    ok := CheckOptions(e.httpOptions.value);
  }

  method CheckService(s: ServicePatch) returns (ok: bool)
    ensures ok == ValidService(s)
  {
    hide ValidStrings, ValidCredentials, ValidEnvName, ValidExpose;
    var command := CheckStrings(s.command);
    if !command { return false; }
    var args := CheckStrings(s.args);
    if !args { return false; }
    var credentials := CheckCredentials(s.credentials);
    if !credentials { return false; }
    var names := s.env.Keys;
    while names != {}
      invariant names <= s.env.Keys && forall name :: name in s.env && name !in names ==> ValidEnvName(name)
      decreases |names|
    {
      var name :| name in names;
      var valid := CheckEnvName(name);
      if !valid { return false; }
      names := names - {name};
    }
    var ports := s.expose.Keys;
    while ports != {}
      invariant ports <= s.expose.Keys && forall key :: key in s.expose && key !in ports ==> ValidExpose(s.expose[key])
      decreases |ports|
    {
      var key :| key in ports;
      var valid := CheckEndpoint(s.expose[key]);
      if !valid { return false; }
      ports := ports - {key};
    }
    return true;
  }

  method CheckPatch(patch: Patch) returns (ok: bool)
    ensures ok == Validate(patch)
  {
    hide ValidService;
    var todo := patch.Keys;
    while todo != {}
      invariant todo <= patch.Keys && forall name :: name in patch && name !in todo ==> ValidService(patch[name])
      decreases |todo|
    {
      var name :| name in todo;
      var valid := CheckService(patch[name]);
      if !valid { return false; }
      todo := todo - {name};
    }
    return true;
  }
}
