// What Apply keeps and what it writes: the frame of an accepted patch, the
// endpoint guarantees, and the distinctness of ports.
module SdlApplyLaws {
  import opened Basics
  import opened SdlDocument
  import opened SdlApply
  import opened SdlRouting

  // The two objects agree on a field, including its absence.
  predicate SameField(a: Fields, b: Fields, key: string) {
    (key in a <==> key in b) && (key in a && key in b ==> a[key] == b[key])
  }

  ghost predicate SameExcept(a: Fields, b: Fields, keys: set<string>) {
    forall k :: k !in keys ==> SameField(a, b, k)
  }

  lemma SameExceptCompose(a: Fields, b: Fields, c: Fields, x: set<string>, y: set<string>)
    requires SameExcept(a, b, x) && SameExcept(b, c, y)
    ensures SameExcept(a, c, x + y)
  {
    forall k | k !in x + y ensures SameField(a, c, k) {
      assert SameField(a, b, k) && SameField(b, c, k);
    }
  }

  lemma SameFieldCompose(a: Fields, b: Fields, c: Fields, key: string)
    requires SameField(a, b, key) && SameField(b, c, key)
    ensures SameField(a, c, key)
  {
  }

  // ---------------------------------------------------------------- endpoints

  // One endpoint before and after an accepted patch.
  ghost predicate EndpointKept(before: Fields, after: Fields, patch: map<string, ExposePatch>) {
    && SameExcept(before, after, {"port", "as", "accept", "http_options"})
    && RoutingKept(before, after)
    && (PatchFor(before, patch).None? ==> after == before)
    && (PatchFor(before, patch).Some? ==> EndpointWritten(before, after, PatchFor(before, patch).value))
  }

  ghost predicate EndpointWritten(before: Fields, after: Fields, change: ExposePatch) {
    && (if change.port.Some? then Get(after, "port") == Number(change.port.value) else SameField(before, after, "port"))
    && (if change.external.Some? then Get(after, "as") == Number(change.external.value)
       else SameField(before, after, "as"))
    && (if change.accept.Some? then Get(after, "accept") == Strings(change.accept.value)
       else SameField(before, after, "accept"))
    && OptionsWritten(before, after, change)
  }

  function AssignedOptions(change: ExposePatch): Fields {
    if change.httpOptions.Some? then OptionValues(change.httpOptions.value) else map[]
  }

  ghost predicate OptionsWritten(before: Fields, after: Fields, change: ExposePatch) {
    if AssignedOptions(change) == map[] then SameField(before, after, "http_options")
    else
      && Get(after, "http_options").Obj?
      && (forall k :: k in AssignedOptions(change) ==>
         Get(ObjOf(Get(after, "http_options")), k) == AssignedOptions(change)[k])
      && SameExcept(ObjOf(Get(before, "http_options")), ObjOf(Get(after, "http_options")), AssignedOptions(change).Keys)
  }

  lemma MoveWrites(entry: Fields, change: ExposePatch)
    ensures var after := MovePorts(entry, change);
            && SameExcept(entry, after, {"port", "as"})
            && (if change.port.Some? then Get(after, "port") == Number(change.port.value)
               else SameField(entry, after, "port"))
            && (if change.external.Some? then Get(after, "as") == Number(change.external.value)
               else SameField(entry, after, "as"))
  {
  }

  lemma OptionsWrite(entry: Fields, change: ExposePatch)
    ensures var after := WriteOptions(entry, change);
            && SameExcept(entry, after, {"accept", "http_options"})
            && (if change.accept.Some? then Get(after, "accept") == Strings(change.accept.value)
               else SameField(entry, after, "accept"))
            && OptionsWritten(entry, after, change)
  {
  }

  lemma SameRouting(before: Fields, moved: Fields, after: Fields)
    requires SameField(moved, after, "port") && SameField(moved, after, "as")
    requires SameField(moved, after, "to") && SameField(before, after, "to") && SameField(before, after, "proto")
    requires RoutingKept(before, moved)
    ensures RoutingKept(before, after)
  {
    hide PlainTcp, OnLeasedIP;
    assert Public(moved) <==> Public(after);
    forall port ensures ServesOn(moved, port) <==> ServesOn(after, port) {}
  }

  lemma MoveKeepsRouting(entry: Fields, change: ExposePatch)
    ensures MoveAllowed(entry, MovePorts(entry, change)) <==> RoutingKept(entry, MovePorts(entry, change))
  {
    hide MoveAllowed, RoutingKept;
    MoveAllowedMeans(entry, MovePorts(entry, change));
  }

  lemma RoutingOfUnmoved(entry: Fields)
    ensures RoutingKept(entry, entry)
  {
  }

  lemma EditWrites(entry: Fields, change: ExposePatch)
    ensures var after := WriteOptions(MovePorts(entry, change), change);
            && SameExcept(entry, after, {"port", "as", "accept", "http_options"})
            && EndpointWritten(entry, after, change)
  {
    var moved := MovePorts(entry, change);
    var after := WriteOptions(moved, change);
    MoveWrites(entry, change);
    OptionsWrite(moved, change);
    hide WriteOptions, MovePorts;
    SameExceptCompose(entry, moved, after, {"port", "as"}, {"accept", "http_options"});
    assert {"port", "as"} + {"accept", "http_options"} == {"port", "as", "accept", "http_options"};
    assert SameField(moved, after, "port") && SameField(moved, after, "as");
    assert SameField(entry, moved, "accept") && SameField(entry, moved, "http_options");
  }

  lemma EditKeepsRouting(entry: Fields, change: ExposePatch)
    requires MoveAllowed(entry, MovePorts(entry, change))
    ensures RoutingKept(entry, WriteOptions(MovePorts(entry, change), change))
  {
    var moved := MovePorts(entry, change);
    var after := WriteOptions(moved, change);
    MoveWrites(entry, change);
    OptionsWrite(moved, change);
    MoveKeepsRouting(entry, change);
    hide WriteOptions, MovePorts, MoveAllowed, RoutingKept, OptionsWritten;
    assert SameField(moved, after, "port") && SameField(moved, after, "as") && SameField(moved, after, "to");
    assert SameField(entry, moved, "to") && SameField(entry, moved, "proto") && SameField(moved, after, "proto");
    SameRouting(entry, moved, after);
  }

  lemma EntryKept(i: nat, before: seq<Fields>, patch: map<string, ExposePatch>)
    requires i < |before| && EntryAllowed(i, before, patch)
    ensures EndpointKept(before[i], EditedEntry(before[i], patch), patch)
  {
    hide RoutingKept, MoveAllowed, WriteOptions, MovePorts, EndpointWritten, CollisionFree;
    if PatchFor(before[i], patch).Some? {
      EditWrites(before[i], PatchFor(before[i], patch).value);
      EditKeepsRouting(before[i], PatchFor(before[i], patch).value);
    } else {
      RoutingOfUnmoved(before[i]);
    }
  }

  ghost predicate ExposeKept(before: Value, after: Value, patch: map<string, ExposePatch>) {
    && before.Arr? && after.Arr? && |after.items| == |before.items|
    && (forall i :: 0 <= i < |before.items| ==>
          && before.items[i].Obj? && after.items[i].Obj?
          && EndpointKept(before.items[i].fields, after.items[i].fields, patch))
  }

  lemma ExposeFrame(service: Fields, patch: map<string, ExposePatch>)
    requires ApplyExpose(service, patch).Ok? && patch != map[]
    ensures var after := ApplyExpose(service, patch).value;
            && SameExcept(service, after, {"expose"})
            && ExposeKept(Get(service, "expose"), Get(after, "expose"), patch)
  {
    hide EndpointKept, EditedEntry, EntryAllowed;
    var key :| key in patch;
    var items := ArrOf(Get(service, "expose"));
    assert AddressesOne(key, Entries(items));
    forall i | 0 <= i < |items| ensures EndpointKept(items[i].fields, EditedEntry(items[i].fields, patch), patch) {
      EntryKept(i, Entries(items), patch);
    }
  }

  ghost predicate DistinctContainerPorts(entries: seq<Fields>) {
    forall i, j :: 0 <= i < j < |entries| ==> Get(entries[i], "port") != Get(entries[j], "port")
  }

  ghost predicate DistinctExternalPorts(entries: seq<Fields>) {
    forall i, j :: 0 <= i < j < |entries| ==> ExternalPort(entries[i]) != ExternalPort(entries[j])
  }

  // Simultaneous moves (swaps included) never create a collision.
  lemma PortsStayDistinct(before: seq<Fields>, after: seq<Fields>, patch: map<string, ExposePatch>)
    requires ExposeAllowed(before, patch)
    requires |after| == |before| && forall i :: 0 <= i < |before| ==> after[i] == EditedEntry(before[i], patch)
    ensures DistinctContainerPorts(before) ==> DistinctContainerPorts(after)
    ensures DistinctExternalPorts(before) ==> DistinctExternalPorts(after)
  {
    forall i, j | 0 <= i < |before| && 0 <= j < |before| && i != j
      ensures Get(before[i], "port") != Get(before[j], "port") ==> Get(after[i], "port") != Get(after[j], "port")
      ensures ExternalPort(before[i]) != ExternalPort(before[j]) ==> ExternalPort(after[i]) != ExternalPort(after[j])
    {
      EditKeepsMovedPorts(before[i], patch);
      EditKeepsMovedPorts(before[j], patch);
      assert EntryAllowed(i, before, patch) && EntryAllowed(j, before, patch);
    }
  }

  lemma EditKeepsMovedPorts(entry: Fields, patch: map<string, ExposePatch>)
    ensures Get(EditedEntry(entry, patch), "port") == Get(Moved(entry, patch), "port")
    ensures ExternalPort(EditedEntry(entry, patch)) == ExternalPort(Moved(entry, patch))
  {
    assert Get(EditedEntry(entry, patch), "as") == Get(Moved(entry, patch), "as");
  }

  // ------------------------------------------------- which moves are accepted

  function AllMoved(before: seq<Fields>, patch: map<string, ExposePatch>): seq<Fields> {
    seq(|before|, i requires 0 <= i < |before| => Moved(before[i], patch))
  }

  ghost predicate MovesKeepRouting(before: seq<Fields>, patch: map<string, ExposePatch>) {
    forall i :: 0 <= i < |before| ==> RoutingKept(before[i], Moved(before[i], patch))
  }

  ghost predicate PortsDistinct(entries: seq<Fields>) {
    DistinctContainerPorts(entries) && DistinctExternalPorts(entries)
  }

  ghost predicate Declared(key: string, entries: seq<Fields>) {
    exists i :: 0 <= i < |entries| && Addresses(key, entries[i])
  }

  lemma DistinctMeansNoCollision(i: nat, before: seq<Fields>, patch: map<string, ExposePatch>, change: ExposePatch)
    requires i < |before| && PortsDistinct(AllMoved(before, patch))
    ensures CollisionFree(i, before, patch, change)
  {
    hide Moved, ExternalPort;
    var after := AllMoved(before, patch);
    forall j | 0 <= j < |before| && j != i
      ensures !Collides(change, before[i], Moved(before[i], patch), Moved(before[j], patch))
    {
      assert after[i] == Moved(before[i], patch) && after[j] == Moved(before[j], patch);
      if i < j {
        assert Get(after[i], "port") != Get(after[j], "port");
      } else {
        assert Get(after[j], "port") != Get(after[i], "port");
      }
    }
  }

  lemma DeclaredOnce(key: string, before: seq<Fields>)
    requires PortsDistinct(before) && Declared(key, before)
    ensures AddressesOne(key, before)
  {
    var i :| 0 <= i < |before| && Addresses(key, before[i]);
    assert forall j :: 0 <= j < |before| && Addresses(key, before[j]) ==>
        Get(before[j], "port") == Get(before[i], "port");
  }

  lemma MovesAccepted(before: seq<Fields>, patch: map<string, ExposePatch>)
    requires forall key :: key in patch ==> AddressesOne(key, before)
    requires MovesKeepRouting(before, patch) && PortsDistinct(AllMoved(before, patch))
    ensures ExposeAllowed(before, patch)
  {
    hide MoveAllowed, RoutingKept, MovePorts, CollisionFree, AddressesOne, PortsDistinct;
    forall i | 0 <= i < |before| ensures EntryAllowed(i, before, patch) {
      var change := PatchFor(before[i], patch);
      if change.Some? {
        MoveKeepsRouting(before[i], change.value);
        DistinctMeansNoCollision(i, before, patch, change.value);
      }
    }
  }

  lemma AcceptedMoves(before: seq<Fields>, patch: map<string, ExposePatch>)
    requires PortsDistinct(before) && ExposeAllowed(before, patch)
    ensures forall key :: key in patch ==> Declared(key, before)
    ensures MovesKeepRouting(before, patch) && PortsDistinct(AllMoved(before, patch))
  {
    hide MoveAllowed, RoutingKept, MovePorts, CollisionFree, ExternalPort;
    forall key | key in patch ensures Declared(key, before) { assert AddressesOne(key, before); }
    forall i | 0 <= i < |before| ensures RoutingKept(before[i], Moved(before[i], patch)) {
      assert EntryAllowed(i, before, patch);
      var change := PatchFor(before[i], patch);
      if change.Some? { MoveKeepsRouting(before[i], change.value); } else { RoutingOfUnmoved(before[i]); }
    }
    var after := seq(|before|, i requires 0 <= i < |before| => EditedEntry(before[i], patch));
    PortsStayDistinct(before, after, patch);
    forall i | 0 <= i < |before|
      ensures Get(AllMoved(before, patch)[i], "port") == Get(after[i], "port")
      ensures ExternalPort(AllMoved(before, patch)[i]) == ExternalPort(after[i])
    {
      EditKeepsMovedPorts(before[i], patch);
    }
  }

  lemma MovesAcceptedExactly(before: seq<Fields>, patch: map<string, ExposePatch>)
    requires PortsDistinct(before)
    ensures ExposeAllowed(before, patch) <==>
              && (forall key :: key in patch ==> Declared(key, before))
              && MovesKeepRouting(before, patch) && PortsDistinct(AllMoved(before, patch))
  {
    hide PortsDistinct, MovesKeepRouting, ExposeAllowed, Declared;
    if ExposeAllowed(before, patch) { AcceptedMoves(before, patch); }
    if (forall key :: key in patch ==> Declared(key, before))
       && MovesKeepRouting(before, patch) && PortsDistinct(AllMoved(before, patch)) {
      forall key | key in patch ensures AddressesOne(key, before) { DeclaredOnce(key, before); }
      MovesAccepted(before, patch);
    }
  }

  // Moves of declared ports that keep every endpoint's routing and leave no two
  // endpoints on one port are accepted; from distinct ports, no others are.
  lemma ExposeAcceptedExactly(service: Fields, patch: map<string, ExposePatch>)
    requires AllObjects(ArrOf(Get(service, "expose"))) && PortsDistinct(Entries(ArrOf(Get(service, "expose"))))
    ensures var before := Entries(ArrOf(Get(service, "expose")));
            ApplyExpose(service, patch).Ok? <==>
              && (forall key :: key in patch ==> Declared(key, before))
              && MovesKeepRouting(before, patch) && PortsDistinct(AllMoved(before, patch))
  {
    hide ExposeAllowed, Declared, MovesKeepRouting, PortsDistinct;
    var before := Entries(ArrOf(Get(service, "expose")));
    MovesAcceptedExactly(before, patch);
    if patch == map[] { NothingMoves(before); }
  }

  lemma NothingMoves(before: seq<Fields>)
    ensures ExposeAllowed(before, map[])
  {
  }

  // Two internal endpoints without `as` trade their ports.
  ghost predicate Trades(before: seq<Fields>, i: nat, j: nat, p: uint32, q: uint32, patch: map<string, ExposePatch>) {
    && i < j < |before| && Get(before[i], "port") == Number(p) && Get(before[j], "port") == Number(q)
    && (forall k :: k == i || k == j ==> "as" !in before[k] && !Public(before[k]) && !OnLeasedIP(before[k]))
    && patch.Keys == {Number(p).text, Number(q).text}
    && (forall k :: k in patch ==> patch[k].external.None?)
    && patch[Number(p).text].port == Some(q) && patch[Number(q).text].port == Some(p)
  }

  lemma TradedPorts(before: seq<Fields>, i: nat, j: nat, p: uint32, q: uint32, patch: map<string, ExposePatch>, k: nat)
    requires PortsDistinct(before) && Trades(before, i, j, p, q, patch) && k < |before|
    ensures k == i ==> Moved(before[k], patch) == before[k]["port" := Number(q)]
    ensures k == j ==> Moved(before[k], patch) == before[k]["port" := Number(p)]
    ensures k != i && k != j ==> Moved(before[k], patch) == before[k]
  {
    hide ExternalPort, Public, OnLeasedIP;
    if k != i && k != j {
      assert Get(before[k], "port") != Number(p) && Get(before[k], "port") != Number(q) by {
        if k < i { assert Get(before[k], "port") != Get(before[i], "port"); }
        if i < k { assert Get(before[i], "port") != Get(before[k], "port"); }
        if k < j { assert Get(before[k], "port") != Get(before[j], "port"); }
        if j < k { assert Get(before[j], "port") != Get(before[k], "port"); }
      }
    }
  }

  // A swap is accepted, though each move alone would collide.
  lemma SwapAccepted(before: seq<Fields>, i: nat, j: nat, p: uint32, q: uint32, patch: map<string, ExposePatch>)
    requires PortsDistinct(before) && Trades(before, i, j, p, q, patch)
    ensures ExposeAllowed(before, patch)
  {
    hide Moved, PatchFor, RoutingKept, ExposeAllowed;
    var after := AllMoved(before, patch);
    forall k | 0 <= k < |before| ensures RoutingKept(before[k], Moved(before[k], patch)) {
      TradedPorts(before, i, j, p, q, patch, k);
      if k == i || k == j {
        InternalMovesFreely(before[k], Moved(before[k], patch));
      } else {
        RoutingOfUnmoved(before[k]);
      }
    }
    forall k | 0 <= k < |before|
      ensures Get(after[k], "port") == Get(before[Partner(i, j, k)], "port")
      ensures ExternalPort(after[k]) == ExternalPort(before[Partner(i, j, k)])
    {
      TradedPorts(before, i, j, p, q, patch, k);
    }
    PartnersDistinct(before, after, i, j);
    assert Addresses(Number(p).text, before[i]) && Addresses(Number(q).text, before[j]);
    MovesAcceptedExactly(before, patch);
  }

  function Partner(i: nat, j: nat, k: nat): nat {
    if k == i then j else if k == j then i else k
  }

  lemma PartnersDistinct(before: seq<Fields>, after: seq<Fields>, i: nat, j: nat)
    requires PortsDistinct(before) && |after| == |before| && i < j < |before|
    requires forall k :: 0 <= k < |before| ==>
               && Get(after[k], "port") == Get(before[Partner(i, j, k)], "port")
               && ExternalPort(after[k]) == ExternalPort(before[Partner(i, j, k)])
    ensures PortsDistinct(after)
  {
    hide ExternalPort;
    forall a, b | 0 <= a < b < |after|
      ensures Get(after[a], "port") != Get(after[b], "port") && ExternalPort(after[a]) != ExternalPort(after[b])
    {
      var x, y := Partner(i, j, a), Partner(i, j, b);
      if x < y {
        assert Get(before[x], "port") != Get(before[y], "port");
      } else {
        assert Get(before[y], "port") != Get(before[x], "port");
      }
    }
  }

  lemma InternalMovesFreely(before: Fields, after: Fields)
    requires !Public(before) && !OnLeasedIP(before) && SameField(before, after, "to")
    ensures RoutingKept(before, after)
  {
  }

  // ------------------------------------------------------------------ volumes

  ghost predicate VolumeKept(before: Fields, after: Fields, change: StoragePatch) {
    && SameExcept(before, after, {"mount", "readOnly"})
    && (if change.mount.Some? then Get(after, "mount") == Str(change.mount.value)
       else SameField(before, after, "mount"))
    && (if change.readOnly.Some? then Get(after, "readOnly") == Bool(change.readOnly.value)
        else SameField(before, after, "readOnly"))
  }

  ghost predicate StorageKept(before: Fields, after: Fields, patch: map<string, StoragePatch>) {
    && SameExcept(ObjOf(Get(before, "params")), ObjOf(Get(after, "params")), {"storage"})
    && Volumes(after).Keys == Volumes(before).Keys
    && (forall name :: name in Volumes(before) && name !in patch ==> Volumes(after)[name] == Volumes(before)[name])
    && (forall name :: name in patch ==>
          && Get(Volumes(before), name).Obj? && Get(Volumes(after), name).Obj?
          && VolumeKept(Get(Volumes(before), name).fields, Get(Volumes(after), name).fields, patch[name]))
  }

  lemma VolumeWritten(volume: Fields, change: StoragePatch)
    ensures VolumeKept(volume, EditedVolume(volume, change), change)
  {
  }

  lemma StorageFrame(service: Fields, patch: map<string, StoragePatch>)
    requires ApplyStorage(service, patch).Ok?
    ensures var after := ApplyStorage(service, patch).value;
            && SameExcept(service, after, {"params"})
            && (patch == map[] ==> after == service)
            && StorageKept(service, after, patch)
  {
    hide VolumeKept, EditedVolume;
    var after := ApplyStorage(service, patch).value;
    if patch != map[] {
      assert Volumes(after) == EditedVolumes(Volumes(service), patch);
      forall name | name in patch
        ensures Get(Volumes(service), name).Obj? && name in Volumes(service)
        ensures VolumeKept(Volumes(service)[name].fields, Volumes(after)[name].fields, patch[name])
      {
        assert Get(Volumes(service), name).Obj?;
        VolumeWritten(Volumes(service)[name].fields, patch[name]);
      }
    }
  }

  // ----------------------------------------------------------------- services

  ghost predicate ClearableWritten(before: Fields, after: Fields, name: string, raw: Option<Value>) {
    if raw.None? then SameField(before, after, name)
    else if raw.value.Null? then name !in after
    else name in after && after[name] == raw.value
  }

  // Credentials are merged: the three sealed fields win, others survive.
  ghost predicate CredentialsWritten(before: Fields, after: Fields, raw: Option<Value>) {
    if raw.None? || raw.value.Null? then ClearableWritten(before, after, "credentials", raw)
    else
      && Get(after, "credentials").Obj?
      && (forall k :: k in ObjOf(raw.value) ==> Get(ObjOf(Get(after, "credentials")), k) == ObjOf(raw.value)[k])
      && SameExcept(ObjOf(Get(before, "credentials")), ObjOf(Get(after, "credentials")), ObjOf(raw.value).Keys)
  }

  ghost predicate ImageAndClearablesWritten(before: Fields, after: Fields, change: ServicePatch) {
    && (if change.image.Some? then Get(after, "image") == Str(change.image.value)
       else SameField(before, after, "image"))
    && ClearableWritten(before, after, "command", change.command)
    && ClearableWritten(before, after, "args", change.args)
    && CredentialsWritten(before, after, change.credentials)
  }

  ghost predicate ServiceKept(before: Fields, after: Fields, change: ServicePatch) {
    && SameExcept(before, after, {"image", "command", "args", "credentials", "env", "expose", "params"})
    && ImageAndClearablesWritten(before, after, change)
    && (change.env == map[] ==> SameField(before, after, "env"))
    && (change.env != map[] ==> EnvWritten(ArrOf(Get(before, "env")), ArrOf(Get(after, "env")), change.env))
    && (if change.expose == map[] then SameField(before, after, "expose")
        else ExposeKept(Get(before, "expose"), Get(after, "expose"), change.expose))
    && (change.storage == map[] ==> SameField(before, after, "params"))
    && StorageKept(before, after, change.storage)
  }

  // Untouched entries keep their order and come first; each assigned name
  // ends up with exactly its new value, each cleared name with none.
  ghost predicate EnvWritten(before: seq<Value>, after: seq<Value>, patch: map<string, Option<string>>) {
    && KeptEnv(before, patch) <= after
    && (forall v :: v in after && !EnvUntouched(v, patch) ==>
          patch[EnvName(v.s)].Some? && v.s == EnvEntry(EnvName(v.s), patch[EnvName(v.s)]))
    && (forall name :: name in patch && patch[name].Some? ==> Str(EnvEntry(name, patch[name])) in after)
    && KeptEnv(after, patch) == KeptEnv(before, patch)
  }

  lemma {:induction false} KeptEnvMembers(entries: seq<Value>, patch: map<string, Option<string>>)
    ensures forall v :: v in KeptEnv(entries, patch) <==> v in entries && EnvUntouched(v, patch)
  {
    if entries != [] {
      KeptEnvMembers(entries[1..], patch);
      assert entries == [entries[0]] + entries[1..];
    }
  }

  lemma {:induction false} KeptEnvConcat(a: seq<Value>, b: seq<Value>, patch: map<string, Option<string>>)
    ensures KeptEnv(a + b, patch) == KeptEnv(a, patch) + KeptEnv(b, patch)
  {
    if a == [] {
      assert a + b == b;
    } else {
      KeptEnvConcat(a[1..], b, patch);
      KeptEnvStep(a[0], a[1..], patch);
      KeptEnvStep(a[0], a[1..] + b, patch);
      hide KeptEnv, EnvUntouched;
      assert a == [a[0]] + a[1..] && a + b == [a[0]] + (a[1..] + b);
    }
  }

  lemma KeptEnvStep(entry: Value, rest: seq<Value>, patch: map<string, Option<string>>)
    ensures KeptEnv([entry] + rest, patch)
         == (if EnvUntouched(entry, patch) then [entry] else []) + KeptEnv(rest, patch)
  {
    assert ([entry] + rest)[1..] == rest;
  }

  lemma {:induction false} KeptEnvIdempotent(entries: seq<Value>, patch: map<string, Option<string>>)
    ensures KeptEnv(KeptEnv(entries, patch), patch) == KeptEnv(entries, patch)
  {
    if entries != [] {
      KeptEnvIdempotent(entries[1..], patch);
      var rest := KeptEnv(entries[1..], patch);
      if EnvUntouched(entries[0], patch) {
        assert ([entries[0]] + rest)[1..] == rest;
      } else {
        assert [] + rest == rest;
      }
    }
  }

  lemma {:induction false} KeptEnvOfTouched(entries: seq<Value>, patch: map<string, Option<string>>)
    requires forall v :: v in entries ==> !EnvUntouched(v, patch)
    ensures KeptEnv(entries, patch) == []
  {
    if entries != [] {
      assert entries[0] in entries;
      KeptEnvOfTouched(entries[1..], patch);
    }
  }

  lemma {:induction false} AddedEnvMembers(keys: seq<string>, patch: map<string, Option<string>>)
    requires forall k :: k in keys ==> k in patch
    ensures forall v :: v in AddedEnv(keys, patch) <==>
              exists k :: k in keys && patch[k].Some? && v == Str(EnvEntry(k, patch[k]))
  {
    if keys != [] {
      AddedEnvMembers(keys[1..], patch);
      assert keys == [keys[0]] + keys[1..];
    }
  }

  ghost predicate Assigned(v: Value, patch: map<string, Option<string>>) {
    v.Str? && EnvName(v.s) in patch && patch[EnvName(v.s)].Some? && v.s == EnvEntry(EnvName(v.s), patch[EnvName(v.s)])
  }

  lemma AddedAssigned(keys: seq<string>, patch: map<string, Option<string>>, v: Value)
    requires forall k :: k in keys ==> k in patch && ValidEnvName(k)
    requires v in AddedEnv(keys, patch)
    ensures Assigned(v, patch)
  {
    AddedEnvMembers(keys, patch);
    var k :| k in keys && patch[k].Some? && v == Str(EnvEntry(k, patch[k]));
    ValidEnvNameHasNoSeparator(k);
    EnvEntryJoins(k, patch[k].value);
  }

  lemma EditedEnvWritten(entries: seq<Value>, patch: map<string, Option<string>>)
    requires forall name :: name in patch ==> ValidEnvName(name)
    ensures EnvWritten(entries, EditedEnv(entries, patch), patch)
  {
    hide KeptEnv, AddedEnv, EnvName, EnvEntry, ValidEnvName;
    var keys := SortedKeys(patch.Keys);
    SortedKeysMembers(patch.Keys);
    var kept, added := KeptEnv(entries, patch), AddedEnv(keys, patch);
    KeptEnvMembers(entries, patch);
    AddedEnvMembers(keys, patch);
    forall v | v in added ensures Assigned(v, patch) { AddedAssigned(keys, patch, v); }
    KeptEnvConcat(kept, added, patch);
    KeptEnvIdempotent(entries, patch);
    KeptEnvOfTouched(added, patch);
  }

  lemma ClearableFrame(service: Fields, name: string, raw: Option<Value>)
    ensures SameExcept(service, WriteClearable(service, name, raw), {name})
    ensures ClearableWritten(service, WriteClearable(service, name, raw), name, raw)
  {
  }

  lemma CredentialsFrame(service: Fields, raw: Option<Value>)
    ensures SameExcept(service, WriteCredentials(service, raw), {"credentials"})
    ensures CredentialsWritten(service, WriteCredentials(service, raw), raw)
  {
  }

  lemma PlainFrame(service: Fields, change: ServicePatch)
    ensures SameExcept(service, WritePlain(service, change), {"image", "command", "args", "credentials"})
    ensures ImageAndClearablesWritten(service, WritePlain(service, change), change)
  {
    var s1 := if change.image.Some? then service["image" := Str(change.image.value)] else service;
    var s2 := WriteClearable(s1, "command", change.command);
    var s3 := WriteClearable(s2, "args", change.args);
    var s4 := WriteCredentials(s3, change.credentials);
    assert SameExcept(service, s1, {"image"});
    ClearableFrame(s1, "command", change.command);
    ClearableFrame(s2, "args", change.args);
    CredentialsFrame(s3, change.credentials);
    SameExceptCompose(service, s1, s2, {"image"}, {"command"});
    SameExceptCompose(s2, s3, s4, {"args"}, {"credentials"});
    SameExceptCompose(service, s2, s4, {"image"} + {"command"}, {"args"} + {"credentials"});
    assert {"image"} + {"command"} + ({"args"} + {"credentials"}) == {"image", "command", "args", "credentials"};
    SameExceptCompose(s1, s2, s4, {"command"}, {"args"} + {"credentials"});
    SameExceptCompose(service, s2, s3, {"image"} + {"command"}, {"args"});
    assert SameField(s1, s4, "image") && SameField(service, s1, "command") && SameField(s2, s4, "command");
    assert SameField(service, s2, "args") && SameField(s3, s4, "args") && SameField(service, s3, "credentials");
  }

  lemma EnvFrame(service: Fields, patch: map<string, Option<string>>)
    requires forall name :: name in patch ==> ValidEnvName(name)
    ensures var after := ApplyEnv(service, patch);
            && SameExcept(service, after, {"env"})
            && (patch == map[] ==> after == service)
            && (patch != map[] ==> EnvWritten(ArrOf(Get(service, "env")), ArrOf(Get(after, "env")), patch))
  {
    hide EnvWritten, EditedEnv, ValidEnvName;
    EditedEnvWritten(ArrOf(Get(service, "env")), patch);
  }

  lemma SameFieldsCarry(a: Fields, b: Fields, c: Fields, change: ServicePatch)
    requires ImageAndClearablesWritten(a, b, change)
    requires SameField(b, c, "image") && SameField(b, c, "command")
    requires SameField(b, c, "args") && SameField(b, c, "credentials")
    ensures ImageAndClearablesWritten(a, c, change)
  {
  }

  // The four steps of ApplyService touch disjoint fields.
  lemma StepsAreDisjoint(service: Fields, s1: Fields, s2: Fields, s3: Fields, s4: Fields)
    requires SameExcept(service, s1, {"image", "command", "args", "credentials"})
    requires SameExcept(s1, s2, {"env"}) && SameExcept(s2, s3, {"expose"}) && SameExcept(s3, s4, {"params"})
    ensures SameField(service, s1, "env") && SameField(service, s2, "expose") && SameField(service, s3, "params")
    ensures SameField(s2, s4, "env") && SameField(s3, s4, "expose")
    ensures SameField(s1, s4, "image") && SameField(s1, s4, "command")
    ensures SameField(s1, s4, "args") && SameField(s1, s4, "credentials")
    ensures SameExcept(service, s4, {"image", "command", "args", "credentials", "env", "expose", "params"})
  {
    var plain := {"image", "command", "args", "credentials"};
    SameExceptCompose(service, s1, s2, plain, {"env"});
    SameExceptCompose(service, s2, s3, plain + {"env"}, {"expose"});
    SameExceptCompose(s2, s3, s4, {"expose"}, {"params"});
    SameExceptCompose(s1, s2, s4, {"env"}, {"expose"} + {"params"});
    SameExceptCompose(service, s1, s4, plain, {"env"} + ({"expose"} + {"params"}));
    assert plain + ({"env"} + ({"expose"} + {"params"}))
        == {"image", "command", "args", "credentials", "env", "expose", "params"};
  }

  lemma ServiceFrame(service: Fields, change: ServicePatch)
    requires ValidService(change) && ApplyService(service, change).Ok?
    ensures ServiceKept(service, ApplyService(service, change).value, change)
  {
    var s1 := WritePlain(service, change);
    var s2 := ApplyEnv(s1, change.env);
    var s3 := ApplyExpose(s2, change.expose).value;
    var s4 := ApplyStorage(s3, change.storage).value;
    PlainFrame(service, change);
    EnvFrame(s1, change.env);
    if change.expose != map[] { ExposeFrame(s2, change.expose); }
    StorageFrame(s3, change.storage);
    StepsAreDisjoint(service, s1, s2, s3, s4);
    SameFieldsCarry(service, s1, s4, change);
    CarryRest(service, s1, s2, s3, s4, change);
  }

  lemma CarryRest(service: Fields, s1: Fields, s2: Fields, s3: Fields, s4: Fields, change: ServicePatch)
    requires SameField(service, s1, "env") && SameField(service, s2, "expose") && SameField(service, s3, "params")
    requires SameField(s2, s4, "env") && SameField(s3, s4, "expose")
    requires SameExcept(service, s4, {"image", "command", "args", "credentials", "env", "expose", "params"})
    requires ImageAndClearablesWritten(service, s4, change)
    requires if change.env == map[] then s2 == s1
             else EnvWritten(ArrOf(Get(s1, "env")), ArrOf(Get(s2, "env")), change.env)
    requires if change.expose == map[] then s3 == s2
             else ExposeKept(Get(s2, "expose"), Get(s3, "expose"), change.expose)
    requires change.storage == map[] ==> s4 == s3
    requires StorageKept(s3, s4, change.storage)
    ensures ServiceKept(service, s4, change)
  {
    assert Get(service, "env") == Get(s1, "env") && Get(s2, "env") == Get(s4, "env");
    assert Get(service, "expose") == Get(s2, "expose") && Get(s3, "expose") == Get(s4, "expose");
    assert Get(service, "params") == Get(s3, "params");
    assert StorageKept(service, s4, change.storage);
  }

  // Apply changes only what the patch names.
  lemma ApplyFrame(document: Fields, patch: Patch)
    requires Apply(document, patch).Ok?
    ensures var after := Apply(document, patch).value;
            && SameExcept(document, after, {"services"})
            && Get(document, "services").Obj? && Get(after, "services").Obj?
            && var was, now := document["services"].fields, after["services"].fields;
               && now.Keys == was.Keys
               && patch.Keys <= was.Keys
               && (forall name :: name in was && name !in patch ==> now[name] == was[name])
               && (forall name :: name in patch ==>
                     was[name].Obj? && now[name].Obj? && ServiceKept(was[name].fields, now[name].fields, patch[name]))
  {
    var services := document["services"].fields;
    forall name | name in patch
      ensures name in services && services[name].Obj? && ApplyService(services[name].fields, patch[name]).Ok?
      ensures ServiceKept(services[name].fields, ApplyService(services[name].fields, patch[name]).value, patch[name])
    {
      assert ServiceAccepts(services, name, patch);
      ServiceFrame(services[name].fields, patch[name]);
    }
  }
}
