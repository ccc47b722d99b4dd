// Anchors and aliases: which nodes other places of the document refer to, and
// what refusing to edit them guarantees (rejectSharedServices,
// internal/deploymentconfig/apply.go).
module YamlSharing {
  import opened Basics
  import opened SdlDocument
  import opened SdlApply
  import opened YamlNodes

  function Kids(g: Graph, id: nat): seq<nat>
    requires id < |g|
  {
    if g[id].Mapping? || g[id].Sequence? then g[id].content else []
  }

  // Nodes are numbered in document order, so content lies strictly ahead.
  // Alias targets may lie anywhere, including around the alias.
  ghost predicate Parsed(g: Graph) {
    && |g| > 0
    && WellFormedGraph(g)
    && (forall id, i :: 0 <= id < |g| && 0 <= i < |Kids(g, id)| ==> id < Kids(g, id)[i] < |g|)
    && (forall id :: 0 <= id < |g| && g[id].Alias? ==> g[id].target < |g|)
  }

  // b lies in the content of a, at any level.
  ghost predicate Contains(g: Graph, a: nat, b: nat)
    requires Parsed(g) && a < |g|
    decreases |g| - a
  {
    a == b || exists i :: 0 <= i < |Kids(g, a)| && Contains(g, Kids(g, a)[i], b)
  }

  // n lies inside some node that an alias within `from` refers to.
  ghost predicate SharedWithin(g: Graph, from: nat, n: nat)
    requires Parsed(g) && from < |g|
  {
    exists x :: 0 <= x < |g| && Contains(g, from, x) && g[x].Alias? && Contains(g, g[x].target, n)
  }

  ghost predicate Shared(g: Graph, n: nat)
    requires Parsed(g)
  {
    SharedWithin(g, 0, n)
  }

  // ------------------------------------------------------------- the marker

  ghost predicate ClosedUnder(g: Graph, marked: set<nat>, added: set<nat>)
    requires Parsed(g)
  {
    forall n, i :: n in added && n < |g| && 0 <= i < |Kids(g, n)| ==> Kids(g, n)[i] in marked
  }

  lemma {:induction false} ClosedContains(g: Graph, marked: set<nat>, a: nat, b: nat)
    requires Parsed(g) && a < |g| && ClosedUnder(g, marked, marked) && a in marked && Contains(g, a, b)
    ensures b in marked
    decreases |g| - a
  {
    if a != b {
      var i :| 0 <= i < |Kids(g, a)| && Contains(g, Kids(g, a)[i], b);
      ClosedContains(g, marked, Kids(g, a)[i], b);
    }
  }

  lemma {:induction false} ContainsTransitive(g: Graph, a: nat, b: nat, c: nat)
    requires Parsed(g) && a < |g| && b < |g| && Contains(g, a, b) && Contains(g, b, c)
    ensures Contains(g, a, c)
    decreases |g| - a
  {
    if a != b {
      var i :| 0 <= i < |Kids(g, a)| && Contains(g, Kids(g, a)[i], b);
      ContainsTransitive(g, Kids(g, a)[i], b, c);
    }
  }

  method MarkShared(g: Graph, id: nat, marked: set<nat>) returns (r: set<nat>)
    requires Parsed(g) && id < |g|
    ensures marked <= r && id in r
    ensures ClosedUnder(g, r, r - marked)
    ensures forall n :: n in r ==> n in marked || Contains(g, id, n)
    decreases |g| - id
  {
    if id in marked { return marked; }
    r := marked + {id};
    var kids := Kids(g, id);
    for i := 0 to |kids|
      invariant marked + {id} <= r
      invariant forall k :: 0 <= k < i ==> kids[k] in r
      invariant ClosedUnder(g, r, r - marked - {id})
      invariant forall n :: n in r ==> n in marked || Contains(g, id, n)
    {
      var before := r;
      r := MarkShared(g, kids[i], before);
      forall n | n in r ensures n in marked || Contains(g, id, n) {
        if n !in before { assert Contains(g, kids[i], n); }
      }
    }
  }

  lemma MarkedExactly(g: Graph, id: nat, marked: set<nat>, r: set<nat>)
    requires Parsed(g) && id < |g| && ClosedUnder(g, marked, marked)
    requires marked <= r && id in r && ClosedUnder(g, r, r - marked)
    requires forall n :: n in r ==> n in marked || Contains(g, id, n)
    ensures ClosedUnder(g, r, r) && forall n :: n in r <==> n in marked || Contains(g, id, n)
  {
    assert ClosedUnder(g, r, r);
    forall n | Contains(g, id, n) ensures n in r { ClosedContains(g, r, id, n); }
  }

  // One level of the scan: the node itself, then its children.
  lemma SharedStep(g: Graph, from: nat, n: nat)
    requires Parsed(g) && from < |g|
    ensures SharedWithin(g, from, n) <==>
              || (g[from].Alias? && Contains(g, g[from].target, n))
              || exists i :: 0 <= i < |Kids(g, from)| && SharedWithin(g, Kids(g, from)[i], n)
  {
    if SharedWithin(g, from, n) {
      var x :| 0 <= x < |g| && Contains(g, from, x) && g[x].Alias? && Contains(g, g[x].target, n);
      if x != from {
        var i :| 0 <= i < |Kids(g, from)| && Contains(g, Kids(g, from)[i], x);
        assert SharedWithin(g, Kids(g, from)[i], n);
      }
    }
    if i :| 0 <= i < |Kids(g, from)| && SharedWithin(g, Kids(g, from)[i], n) {
      var k := Kids(g, from)[i];
      var x :| 0 <= x < |g| && Contains(g, k, x) && g[x].Alias? && Contains(g, g[x].target, n);
      assert Contains(g, from, x);
    }
  }

  method Scan(g: Graph, id: nat, marked: set<nat>) returns (r: set<nat>)
    requires Parsed(g) && id < |g| && ClosedUnder(g, marked, marked)
    ensures ClosedUnder(g, r, r)
    ensures forall n :: n in r <==> n in marked || SharedWithin(g, id, n)
    decreases |g| - id
  {
    r := marked;
    if g[id].Alias? {
      r := MarkShared(g, g[id].target, marked);
      MarkedExactly(g, g[id].target, marked, r);
    }
    var kids := Kids(g, id);
    for i := 0 to |kids|
      invariant ClosedUnder(g, r, r)
      invariant forall n :: n in r <==>
                  || n in marked
                  || (g[id].Alias? && Contains(g, g[id].target, n))
                  || exists k :: 0 <= k < i && SharedWithin(g, kids[k], n)
    {
      r := Scan(g, kids[i], r);
    }
    forall n ensures n in r <==> n in marked || SharedWithin(g, id, n) { SharedStep(g, id, n); }
  }

  // The marker is exactly the content of the alias targets.
  method SharedNodes(g: Graph) returns (r: set<nat>)
    requires Parsed(g)
    ensures forall n :: n in r <==> Shared(g, n)
  {
    r := Scan(g, 0, {});
  }

  // ------------------------------------------------ what not being shared means

  ghost predicate Step(g: Graph, a: nat, b: nat)
    requires a < |g|
  {
    b in Kids(g, a) || (g[a].Alias? && b == g[a].target)
  }

  // A way to reach a node from the document root, through content or aliases.
  ghost predicate Route(g: Graph, path: seq<nat>) {
    && |path| > 0 && path[0] == 0 && InGraph(g, path)
    && forall i :: 0 <= i < |path| - 1 ==> Step(g, path[i], path[i + 1])
  }

  // The parser hangs every node below the root, in one place.
  ghost predicate IsTree(g: Graph)
    requires Parsed(g)
  {
    && (forall n :: 0 <= n < |g| ==> Contains(g, 0, n))
    && (forall a, b, i, j :: 0 <= a < |g| && 0 <= b < |g| && 0 <= i < |Kids(g, a)| && 0 <= j < |Kids(g, b)| ==>
          (Kids(g, a)[i] == Kids(g, b)[j] ==> a == b && i == j))
  }

  lemma {:induction false} AliasFreeTail(g: Graph, path: seq<nat>, i: nat)
    requires Parsed(g) && Route(g, path) && i < |path|
    requires forall k :: i <= k < |path| - 1 ==> !g[path[k]].Alias?
    ensures Contains(g, path[i], path[|path| - 1])
    decreases |path| - i
  {
    if i < |path| - 1 {
      AliasFreeTail(g, path, i + 1);
      assert Step(g, path[i], path[i + 1]);
      var k :| 0 <= k < |Kids(g, path[i])| && Kids(g, path[i])[k] == path[i + 1];
    }
  }

  // No route to an unshared node passes through an alias.
  lemma {:induction false} UnsharedRoutesAreDirect(g: Graph, path: seq<nat>, i: nat)
    requires Parsed(g) && IsTree(g) && Route(g, path) && !Shared(g, path[|path| - 1]) && i < |path|
    ensures forall k :: i <= k < |path| - 1 ==> !g[path[k]].Alias?
    decreases |path| - i
  {
    if i < |path| - 1 {
      UnsharedRoutesAreDirect(g, path, i + 1);
      if g[path[i]].Alias? {
        AliasFreeTail(g, path, i + 1);
      }
    }
  }

  lemma LastStepIsContent(g: Graph, path: seq<nat>)
    requires Parsed(g) && Route(g, path) && |path| > 1 && !g[path[|path| - 2]].Alias?
    ensures path[|path| - 1] in Kids(g, path[|path| - 2]) && path[|path| - 1] > path[|path| - 2]
  {
    assert Step(g, path[|path| - 2], path[|path| - 1]);
  }

  // So exactly one route leads to an unshared node: editing it edits nothing
  // that any other place of the document shows.
  lemma {:induction false} OneRoute(g: Graph, p: seq<nat>, q: seq<nat>)
    requires Parsed(g) && IsTree(g) && Route(g, p) && Route(g, q) && p[|p| - 1] == q[|q| - 1]
    requires forall k :: 0 <= k < |p| - 1 ==> !g[p[k]].Alias?
    requires forall k :: 0 <= k < |q| - 1 ==> !g[q[k]].Alias?
    ensures p == q
    decreases |p|
  {
    if |p| > 1 { LastStepIsContent(g, p); }
    if |q| > 1 { LastStepIsContent(g, q); }
    if |p| > 1 && |q| > 1 {
      var a, b := p[|p| - 2], q[|q| - 2];
      var i :| 0 <= i < |Kids(g, a)| && Kids(g, a)[i] == p[|p| - 1];
      var j :| 0 <= j < |Kids(g, b)| && Kids(g, b)[j] == q[|q| - 1];
      assert a == b;
      OneRoute(g, p[..|p| - 1], q[..|q| - 1]);
      assert p == p[..|p| - 1] + [p[|p| - 1]] && q == q[..|q| - 1] + [q[|q| - 1]];
    }
  }

  lemma UnsharedHasOneRoute(g: Graph, p: seq<nat>, q: seq<nat>)
    requires Parsed(g) && IsTree(g) && Route(g, p) && Route(g, q)
    requires p[|p| - 1] == q[|q| - 1] && !Shared(g, p[|p| - 1])
    ensures p == q
  {
    UnsharedRoutesAreDirect(g, p, 0);
    UnsharedRoutesAreDirect(g, q, 0);
    OneRoute(g, p, q);
  }

  // -------------------------------------------------------------- the refusal

  function KeyText(n: Node): string {
    if n.Scalar? then n.text else ""
  }

  function Lookup(g: Graph, content: seq<nat>, key: string): Option<nat>
    requires InGraph(g, content) && |content| % 2 == 0
    ensures Lookup(g, content, key).Some? ==> Lookup(g, content, key).value in content
  {
    if content == [] then None
    else if KeyText(g[content[0]]) == key then Some(content[1])
    else Lookup(g, content[2..], key)
  }

  // mappingNode: the first entry under a key.
  function Entry(g: Graph, node: Option<nat>, key: string): (r: Option<nat>)
    requires Parsed(g) && (node.Some? ==> node.value < |g|)
    ensures r.Some? ==> node.Some? && r.value in Kids(g, node.value) && r.value < |g|
  {
    if node.None? || !g[node.value].Mapping? then None
    else
      assert WellFormedNode(g, g[node.value]);
      Lookup(g, g[node.value].content, key)
  }

  function Resolved(g: Graph, node: Option<nat>): (r: Option<nat>)
    requires Parsed(g) && (node.Some? ==> node.value < |g|)
    ensures r.Some? ==> r.value < |g|
  {
    if node.Some? && g[node.value].Alias? then Some(g[node.value].target) else node
  }

  predicate ExposeAssigns(e: ExposePatch) {
    e.port.Some? || e.external.Some? || e.accept.Some? || (e.httpOptions.Some?
      && OptionValues(e.httpOptions.value) != map[])
  }

  predicate StorageAssigns(s: StoragePatch) {
    s.mount.Some? || s.readOnly.Some?
  }

  predicate ServiceAssigns(s: ServicePatch) {
    || s.image.Some? || s.command.Some? || s.args.Some? || s.credentials.Some? || s.env != map[]
    || (exists key :: key in s.expose && ExposeAssigns(s.expose[key]))
    || (exists name :: name in s.storage && StorageAssigns(s.storage[name]))
  }

  predicate IsShared(g: Graph, marked: set<nat>, node: Option<nat>)
    requires node.Some? ==> node.value < |g|
  {
    node.Some? && (g[node.value].Alias? || node.value in marked)
  }

  predicate EndpointRefused(g: Graph, marked: set<nat>, entry: nat, patch: map<string, ExposePatch>)
    requires Parsed(g) && entry < |g|
  {
    var port := Resolved(g, Entry(g, Resolved(g, Some(entry)), "port"));
    port.Some? && KeyText(g[port.value]) in patch
    && var e := patch[KeyText(g[port.value])];
       || IsShared(g, marked, Some(entry))
       || (e.httpOptions.Some? && OptionValues(e.httpOptions.value) != map[]
           && IsShared(g, marked, Entry(g, Some(entry), "http_options")))
  }

  predicate ServiceRefused(g: Graph, marked: set<nat>, service: Option<nat>, s: ServicePatch)
    requires Parsed(g) && (service.Some? ==> service.value < |g|)
  {
    var expose := Entry(g, service, "expose");
    var params := Entry(g, service, "params");
    var storage := Entry(g, params, "storage");
    service.Some? && (
      || IsShared(g, marked, service)
      || Entry(g, service, "<<").Some?
      || (s.env != map[] && IsShared(g, marked, Entry(g, service, "env")))
      || (s.credentials.Some? && IsShared(g, marked, Entry(g, service, "credentials")))
      || (expose.Some? && s.expose != map[] && (
            || IsShared(g, marked, expose)
            || exists i :: 0 <= i < |Kids(g, expose.value)| &&
                 EndpointRefused(g, marked, Kids(g, expose.value)[i], s.expose)))
      || (params.Some? && s.storage != map[] && (
            || IsShared(g, marked, params)
            || IsShared(g, marked, storage)
            || exists name :: name in s.storage && StorageAssigns(s.storage[name]) &&
                 IsShared(g, marked, Entry(g, storage, name)))))
  }

  // rejectSharedServices lets the patch through.
  predicate SharingAccepted(g: Graph, marked: set<nat>, patch: Patch)
    requires Parsed(g)
  {
    var services := Entry(g, Some(0), "services");
    forall name :: name in patch && ServiceAssigns(patch[name]) ==>
      && !(services.None? && Entry(g, Some(0), "<<").Some?)
      && !IsShared(g, marked, services)
      && !ServiceRefused(g, marked, Entry(g, services, name), patch[name])
  }

  // A declared entry that is neither an alias nor inside an alias target.
  ghost predicate PrivateEntry(g: Graph, node: Option<nat>)
    requires Parsed(g) && (node.Some? ==> node.value < |g|)
  {
    node.Some? ==> !g[node.value].Alias? && !Shared(g, node.value)
  }

  // The change alters some service it is accepted on.
  ghost predicate ChangesSome(change: ServicePatch) {
    exists s :: ApplyService(s, change).Ok? && ApplyService(s, change).value != s
  }

  lemma UnassignedEntryKept(entry: Fields, patch: map<string, ExposePatch>)
    requires forall key :: key in patch ==> !ExposeAssigns(patch[key])
    ensures EditedEntry(entry, patch) == entry
  {
  }

  lemma UnassignedExposeKept(s: Fields, patch: map<string, ExposePatch>)
    requires ApplyExpose(s, patch).Ok? && forall key :: key in patch ==> !ExposeAssigns(patch[key])
    ensures ApplyExpose(s, patch).value == s
  {
    if patch != map[] {
      hide EditedEntry, EntryAllowed, ExposeAssigns;
      var key :| key in patch;
      var items := ArrOf(Get(s, "expose"));
      assert AddressesOne(key, Entries(items));
      forall i | 0 <= i < |items| ensures EditedEntry(Entries(items)[i], patch) == items[i].fields {
        UnassignedEntryKept(Entries(items)[i], patch);
      }
      assert EditedExpose(Entries(items), patch).items == items;
    }
  }

  lemma UnassignedStorageKept(s: Fields, patch: map<string, StoragePatch>)
    requires ApplyStorage(s, patch).Ok? && forall name :: name in patch ==> !StorageAssigns(patch[name])
    ensures ApplyStorage(s, patch).value == s
  {
    if patch != map[] {
      var name :| name in patch;
      assert Get(Volumes(s), name).Obj?;
      forall k | k in patch ensures EditedVolume(ObjOf(Volumes(s)[k]), patch[k]) == Volumes(s)[k].fields {
        assert Get(Volumes(s), k).Obj? && !StorageAssigns(patch[k]);
      }
      assert EditedVolumes(Volumes(s), patch) == Volumes(s);
      var params := ObjOf(Get(s, "params"));
      assert params["storage" := Obj(Volumes(s))] == params;
    }
  }

  // A patch that is not taken to assign anything changes no service.
  lemma UnassignedChangesNothing(s: Fields, change: ServicePatch)
    requires !ServiceAssigns(change) && ApplyService(s, change).Ok?
    ensures ApplyService(s, change).value == s
  {
    hide ExposeAssigns, StorageAssigns, ApplyExpose, ApplyStorage;
    assert WritePlain(s, change) == s && ApplyEnv(s, change.env) == s;
    UnassignedExposeKept(s, change.expose);
    UnassignedStorageKept(s, change.storage);
  }

  ghost predicate SomeOption(o: HttpOptionsPatch) {
    || o.maxBodySize.Some? || o.readTimeout.Some? || o.sendTimeout.Some?
    || o.nextTries.Some? || o.nextTimeout.Some? || o.nextCases.Some?
  }

  lemma SomeOptionWrites(o: HttpOptionsPatch)
    ensures SomeOption(o) <==> OptionValues(o) != map[]
  {
    if SomeOption(o) {
      var name :=
        if o.maxBodySize.Some? then "max_body_size" else if o.readTimeout.Some? then "read_timeout"
        else if o.sendTimeout.Some? then "send_timeout" else if o.nextTries.Some? then "next_tries"
        else if o.nextTimeout.Some? then "next_timeout" else "next_cases";
      assert name in OPTION_NAMES && !OptionValue(o, name).Null?;
      assert name in OptionValues(o);
    }
  }

  // Every endpoint the patch addresses is private, and so are the options it
  // is given.
  ghost predicate EndpointsPrivate(g: Graph, expose: Option<nat>, patch: map<string, ExposePatch>)
    requires Parsed(g) && (expose.Some? ==> expose.value < |g|)
  {
    expose.Some? ==> forall i :: 0 <= i < |Kids(g, expose.value)| ==>
      var entry := Kids(g, expose.value)[i];
      var port := Resolved(g, Entry(g, Resolved(g, Some(entry)), "port"));
      port.Some? && KeyText(g[port.value]) in patch ==>
        var options := patch[KeyText(g[port.value])].httpOptions;
        && PrivateEntry(g, Some(entry))
        && (options.Some? && SomeOption(options.value) ==> PrivateEntry(g, Entry(g, Some(entry), "http_options")))
  }

  ghost predicate StoragePrivate(g: Graph, params: Option<nat>, patch: map<string, StoragePatch>)
    requires Parsed(g) && (params.Some? ==> params.value < |g|)
  {
    var storage := Entry(g, params, "storage");
    && PrivateEntry(g, params) && PrivateEntry(g, storage)
    && forall name :: name in patch && (patch[name].mount.Some? || patch[name].readOnly.Some?) ==>
         PrivateEntry(g, Entry(g, storage, name))
  }

  // Every node that applying the change to this service writes below.
  ghost predicate ServicePrivate(g: Graph, service: Option<nat>, change: ServicePatch)
    requires Parsed(g) && (service.Some? ==> service.value < |g|)
  {
    && PrivateEntry(g, service) && Entry(g, service, "<<").None?
    && (change.env != map[] ==> PrivateEntry(g, Entry(g, service, "env")))
    && (change.credentials.Some? ==> PrivateEntry(g, Entry(g, service, "credentials")))
    && (change.expose != map[] ==> PrivateEntry(g, Entry(g, service, "expose")))
    && EndpointsPrivate(g, Entry(g, service, "expose"), change.expose)
    && (change.storage != map[] ==> StoragePrivate(g, Entry(g, service, "params"), change.storage))
  }

  ghost predicate MarksShared(g: Graph, marked: set<nat>)
    requires Parsed(g)
  {
    forall n :: n in marked <==> Shared(g, n)
  }

  lemma EndpointsUnrefused(g: Graph, marked: set<nat>, expose: nat, patch: map<string, ExposePatch>)
    requires Parsed(g) && MarksShared(g, marked) && expose < |g|
    ensures EndpointsPrivate(g, Some(expose), patch) <==>
              forall i :: 0 <= i < |Kids(g, expose)| ==> !EndpointRefused(g, marked, Kids(g, expose)[i], patch)
  {
    hide Shared, OptionValues, SomeOption, Entry, Resolved, KeyText;
    forall o ensures SomeOption(o) <==> OptionValues(o) != map[] { SomeOptionWrites(o); }
  }

  lemma NothingAddressed(g: Graph, expose: Option<nat>, patch: map<string, ExposePatch>)
    requires Parsed(g) && (expose.Some? ==> expose.value < |g|) && (patch == map[] || expose.None?)
    ensures EndpointsPrivate(g, expose, patch)
  {
  }

  lemma StorageUnrefused(g: Graph, marked: set<nat>, params: nat, patch: map<string, StoragePatch>)
    requires Parsed(g) && MarksShared(g, marked) && params < |g|
    ensures var storage := Entry(g, Some(params), "storage");
            StoragePrivate(g, Some(params), patch) <==>
              && !IsShared(g, marked, Some(params)) && !IsShared(g, marked, storage)
              && forall name :: name in patch && StorageAssigns(patch[name]) ==>
                   !IsShared(g, marked, Entry(g, storage, name))
  {
    hide Shared, Entry;
  }

  // One service is let through exactly when what its patch writes is private.
  lemma UnrefusedIsPrivate(g: Graph, marked: set<nat>, service: Option<nat>, change: ServicePatch)
    requires Parsed(g) && MarksShared(g, marked) && (service.Some? ==> service.value < |g|)
    ensures !ServiceRefused(g, marked, service, change) <==> ServicePrivate(g, service, change)
  {
    hide Shared, EndpointRefused, EndpointsPrivate, StoragePrivate, StorageAssigns;
    var expose, params := Entry(g, service, "expose"), Entry(g, service, "params");
    if change.expose == map[] || expose.None? {
      NothingAddressed(g, expose, change.expose);
    } else {
      EndpointsUnrefused(g, marked, expose.value, change.expose);
    }
    if params.Some? { StorageUnrefused(g, marked, params.value, change.storage); } else { NothingStored(g, change); }
  }

  lemma NothingStored(g: Graph, change: ServicePatch)
    requires Parsed(g)
    ensures StoragePrivate(g, None, change.storage)
  {
  }

  lemma {:induction false} OnlyTargetsShared(g: Graph, n: nat)
    requires Parsed(g) && (forall x :: 0 <= x < |g| ==> !g[x].Alias?)
    ensures !Shared(g, n)
  {
  }

  // A document without aliases and merge keys can be patched anywhere.
  lemma PlainDocumentAccepted(g: Graph, marked: set<nat>, patch: Patch)
    requires Parsed(g) && MarksShared(g, marked)
    requires forall x :: 0 <= x < |g| ==> !g[x].Alias? && KeyText(g[x]) != "<<"
    ensures SharingAccepted(g, marked, patch)
  {
    hide Shared, ServiceRefused, ServiceAssigns, KeyText;
    forall n ensures !Shared(g, n) { OnlyTargetsShared(g, n); }
    forall node: Option<nat> | node.Some? ==> node.value < |g| ensures Entry(g, node, "<<").None? {
      if node.Some? && g[node.value].Mapping? {
        assert WellFormedNode(g, g[node.value]);
        NoSuchKey(g, g[node.value].content, "<<");
      }
    }
    var services := Entry(g, Some(0), "services");
    forall name | name in patch ensures !ServiceRefused(g, marked, Entry(g, services, name), patch[name]) {
      NothingShared(g, Entry(g, services, name), patch[name]);
      UnrefusedIsPrivate(g, marked, Entry(g, services, name), patch[name]);
    }
  }

  lemma NothingShared(g: Graph, service: Option<nat>, change: ServicePatch)
    requires Parsed(g) && (service.Some? ==> service.value < |g|)
    requires forall x :: 0 <= x < |g| ==> !g[x].Alias? && !Shared(g, x)
    requires Entry(g, service, "<<").None?
    ensures ServicePrivate(g, service, change)
  {
    hide Shared;
  }

  lemma {:induction false} NoSuchKey(g: Graph, content: seq<nat>, key: string)
    requires InGraph(g, content) && |content| % 2 == 0
    requires forall x :: 0 <= x < |g| ==> KeyText(g[x]) != key
    ensures Lookup(g, content, key).None?
    decreases |content|
  {
    if content != [] { NoSuchKey(g, content[2..], key); }
  }

  // Acceptance: for every service whose patch can change anything, all that
  // the patch writes below is declared in one place, with no merge key.
  lemma AcceptedIsPrivate(g: Graph, marked: set<nat>, patch: Patch, name: string)
    requires Parsed(g) && MarksShared(g, marked)
    requires SharingAccepted(g, marked, patch) && name in patch && ChangesSome(patch[name])
    ensures var services := Entry(g, Some(0), "services");
            && PrivateEntry(g, services) && ServicePrivate(g, Entry(g, services, name), patch[name])
            && (services.None? ==> Entry(g, Some(0), "<<").None?)
  {
    hide Shared, ServiceRefused, ServicePrivate, ApplyService, ServiceAssigns;
    var s :| ApplyService(s, patch[name]).Ok? && ApplyService(s, patch[name]).value != s;
    if !ServiceAssigns(patch[name]) { UnassignedChangesNothing(s, patch[name]); }
    UnrefusedIsPrivate(g, marked, Entry(g, Entry(g, Some(0), "services"), name), patch[name]);
  }

  // Together: an accepted patch edits a service that exactly one route
  // through the document, aliases included, leads to.
  lemma AcceptedEditsOnePlace(g: Graph, marked: set<nat>, patch: Patch, name: string, route: seq<nat>)
    requires Parsed(g) && IsTree(g) && MarksShared(g, marked)
    requires SharingAccepted(g, marked, patch) && name in patch && ChangesSome(patch[name])
    requires Route(g, route) && Some(route[|route| - 1]) == Entry(g, Entry(g, Some(0), "services"), name)
    ensures var services := Entry(g, Some(0), "services");
            services.Some? && route == [0, services.value, route[|route| - 1]]
  {
    hide SharingAccepted, ChangesSome, Shared, IsTree;
    AcceptedIsPrivate(g, marked, patch, name);
    var services := Entry(g, Some(0), "services").value;
    var direct := [0, services, route[|route| - 1]];
    assert Step(g, 0, services) && Step(g, services, route[|route| - 1]);
    UnsharedHasOneRoute(g, route, direct);
  }
}
