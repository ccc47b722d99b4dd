// Diff and Apply are inverse up to normalizeSDL: on well-formed documents Diff
// finds a patch exactly when some valid patch produces the requested document.
module SdlRoundTrip {
  import opened Basics
  import opened SdlDocument
  import opened SdlApply
  import opened SdlApplyLaws
  import opened SdlDiff
  import opened SdlEnvLaws
  import opened SdlExposeLaws

  const NORMALIZED: set<string> := {"command", "args", "credentials", "env"}
  const EDITABLE: set<string> := {"image", "command", "args", "credentials", "env", "expose", "params"}

  // ------------------------------------------------- equality of normal forms

  ghost predicate SameNormal(a: Fields, b: Fields) {
    && SameExcept(a, b, NORMALIZED)
    && (forall k :: k in CLEARABLE ==> Get(a, k) == Get(b, k))
    && NormalEnv(Get(a, "env")) == NormalEnv(Get(b, "env"))
  }

  lemma NormalAt(a: Fields, k: string)
    ensures k !in NORMALIZED ==> SameField(a, NormalService(a), k)
    ensures k in CLEARABLE ==> Get(NormalService(a), k) == Get(a, k)
    ensures Get(NormalService(a), "env") == NormalEnv(Get(a, "env"))
    ensures k in NORMALIZED ==> (k in NormalService(a) <==> !Get(NormalService(a), k).Null?)
  {
    assert NormalEnv(Null) == Null;
    hide NormalEnv;
  }

  lemma NormalFormsAgree(a: Fields, b: Fields)
    ensures NormalService(a) == NormalService(b) <==> SameNormal(a, b)
  {
    hide NormalEnv, NormalService;
    forall k
      ensures k !in NORMALIZED ==> SameField(a, NormalService(a), k) && SameField(b, NormalService(b), k)
      ensures k in CLEARABLE ==> Get(NormalService(a), k) == Get(a, k) && Get(NormalService(b), k) == Get(b, k)
      ensures k in NORMALIZED ==>
                && (k in NormalService(a) <==> !Get(NormalService(a), k).Null?)
                && (k in NormalService(b) <==> !Get(NormalService(b), k).Null?)
    {
      NormalAt(a, k);
      NormalAt(b, k);
    }
    NormalAt(a, "env");
    NormalAt(b, "env");
    assert forall k :: k in NORMALIZED <==> k in CLEARABLE || k == "env";
    if SameNormal(a, b) {
      forall k ensures SameField(NormalService(a), NormalService(b), k) {
        if k !in NORMALIZED {
          assert SameField(a, b, k);
        }
      }
      assert NormalService(a).Keys == NormalService(b).Keys;
    }
    if NormalService(a) == NormalService(b) {
      forall k | k !in NORMALIZED ensures SameField(a, b, k) { }
    }
  }

  // ----------------------------------------- what ApplyService leaves behind

  function Cleared(before: Value, raw: Option<Value>): Value {
    if raw.None? then before else raw.value
  }

  function Credentialed(before: Value, raw: Option<Value>): Value {
    if raw.None? then before
    else if raw.value.Null? then Null
    else Obj(ObjOf(before) + ObjOf(raw.value))
  }

  ghost predicate PlainOutcome(s: Fields, change: ServicePatch, r: Fields) {
    && (if change.image.Some? then "image" in r && r["image"] == Str(change.image.value) else SameField(s, r, "image"))
    && Get(r, "command") == Cleared(Get(s, "command"), change.command)
    && Get(r, "args") == Cleared(Get(s, "args"), change.args)
    && Get(r, "credentials") == Credentialed(Get(s, "credentials"), change.credentials)
  }

  // Field by field, r is s edited by the change.
  ghost predicate Outcome(s: Fields, change: ServicePatch, r: Fields) {
    && SameExcept(s, r, EDITABLE)
    && PlainOutcome(s, change, r)
    && Get(r, "env") == EnvResult(Get(s, "env"), change.env)
    && ApplyExpose(s, change.expose).Ok? && SameField(r, ApplyExpose(s, change.expose).value, "expose")
    && ApplyStorage(s, change.storage).Ok? && SameField(r, ApplyStorage(s, change.storage).value, "params")
  }

  lemma PlainSteps(s: Fields, change: ServicePatch)
    ensures PlainOutcome(s, change, WritePlain(s, change))
  {
    var s1 := if change.image.Some? then s["image" := Str(change.image.value)] else s;
    var s2 := WriteClearable(s1, "command", change.command);
    var s3 := WriteClearable(s2, "args", change.args);
    assert Get(s, "command") == Get(s1, "command") && Get(s, "args") == Get(s2, "args");
    assert Get(s, "credentials") == Get(s3, "credentials");
  }

  lemma EnvStep(s: Fields, patch: map<string, Option<string>>)
    ensures Get(ApplyEnv(s, patch), "env") == EnvResult(Get(s, "env"), patch)
    ensures SameExcept(s, ApplyEnv(s, patch), {"env"})
  {
  }

  // applyExpose reads and writes nothing but the endpoint list.
  lemma ExposeStep(s: Fields, t: Fields, patch: map<string, ExposePatch>)
    requires SameField(s, t, "expose")
    ensures ApplyExpose(s, patch).Ok? <==> ApplyExpose(t, patch).Ok?
    ensures ApplyExpose(t, patch).Ok? ==>
              && SameExcept(t, ApplyExpose(t, patch).value, {"expose"})
              && SameField(ApplyExpose(s, patch).value, ApplyExpose(t, patch).value, "expose")
  {
    hide ExposeAllowed, EditedExpose;
  }

  lemma StorageStep(s: Fields, t: Fields, patch: map<string, StoragePatch>)
    requires SameField(s, t, "params")
    ensures ApplyStorage(s, patch).Ok? <==> ApplyStorage(t, patch).Ok?
    ensures ApplyStorage(t, patch).Ok? ==>
              && SameExcept(t, ApplyStorage(t, patch).value, {"params"})
              && SameField(ApplyStorage(s, patch).value, ApplyStorage(t, patch).value, "params")
  {
    hide EditedVolumes;
    assert Volumes(s) == Volumes(t);
  }

  lemma PlainCarries(s: Fields, r: Fields, t: Fields, change: ServicePatch)
    requires PlainOutcome(s, change, r)
    requires SameField(r, t, "image") && SameField(r, t, "command") && SameField(r, t, "args")
             && SameField(r, t, "credentials")
    ensures PlainOutcome(s, change, t)
  {
  }

  lemma ServiceOutcome(s: Fields, change: ServicePatch)
    ensures ApplyService(s, change).Ok? <==> ApplyExpose(s, change.expose).Ok? && ApplyStorage(s, change.storage).Ok?
    ensures ApplyService(s, change).Ok? ==> Outcome(s, change, ApplyService(s, change).value)
  {
    hide WritePlain, ApplyEnv, ApplyExpose, ApplyStorage, PlainOutcome, EnvResult;
    var s1 := WritePlain(s, change);
    var s2 := ApplyEnv(s1, change.env);
    PlainFrame(s, change);
    PlainSteps(s, change);
    EnvStep(s1, change.env);
    SameExceptCompose(s, s1, s2, {"image", "command", "args", "credentials"}, {"env"});
    assert SameField(s, s2, "expose") && SameField(s, s2, "params") && SameField(s, s1, "env");
    ExposeStep(s, s2, change.expose);
    if ApplyExpose(s, change.expose).Ok? {
      var s3 := ApplyExpose(s2, change.expose).value;
      SameFieldCompose(s, s2, s3, "params");
      StorageStep(s, s3, change.storage);
      if ApplyStorage(s, change.storage).Ok? {
        var s4 := ApplyStorage(s3, change.storage).value;
        StepsAreDisjoint(s, s1, s2, s3, s4);
        PlainCarries(s, s1, s4, change);
      }
    }
  }

  // --------------------------------------------------------------- one service

  // Volumes are objects; the environment is a list of distinctly named
  // strings, or need not be compared entry by entry.
  ghost predicate Comparable(s: Fields, after: Fields) {
    VolumesAreObjects(s) && (EnvListed(Get(s, "env")) || Get(s, "env") == Get(after, "env"))
  }

  lemma EnvNarrows(before: Value, patch: map<string, Option<string>>, after: Value)
    requires EnvListed(before) || before == after
    requires forall name :: name in patch ==> ValidEnvName(name)
    requires NormalEnv(after) == NormalEnv(EnvResult(before, patch))
    ensures DiffEnv(before, after).Ok?
    ensures forall name :: name in DiffEnv(before, after).value ==> ValidEnvName(name)
    ensures NormalEnv(EnvResult(before, DiffEnv(before, after).value)) == NormalEnv(after)
  {
    hide NormalEnv, EnvListed, ValidEnvName;
    if before != after { EnvRoundTrip(before, patch, after); }
  }

  lemma ImageRoundTrip(s: Fields, change: Option<string>, r: Fields, after: Fields)
    requires if change.Some? then "image" in r && r["image"] == Str(change.value) else SameField(s, r, "image")
    requires SameField(after, r, "image")
    ensures DiffImage(Get(s, "image"), Get(after, "image"))
         == Ok(if Get(s, "image") == Get(after, "image") then None else change)
  {
  }

  lemma CredentialsRoundTrip(before: Value, change: Option<Value>, after: Value)
    requires ValidCredentials(change) && after == Credentialed(before, change)
    ensures DiffCredentials(before, after) == Ok(if before == after then None else change)
  {
    if change.Some? && change.value.Obj? {
      assert change.value.fields.Keys == {"host", "username", "password"};
      assert map["host" := Get(after.fields, "host"), "username" := Get(after.fields, "username"),
                 "password" := Get(after.fields, "password")] == change.value.fields;
    }
  }

  // The patch Diff derives for one service of a document that `change` makes.
  ghost predicate Narrows(q: ServicePatch, s: Fields, change: ServicePatch, after: Fields) {
    && q.image == (if Get(s, "image") == Get(after, "image") then None else change.image)
    && q.command == (if Get(s, "command") == Get(after, "command") then None else change.command)
    && q.args == (if Get(s, "args") == Get(after, "args") then None else change.args)
    && q.credentials == (if Get(s, "credentials") == Get(after, "credentials") then None else change.credentials)
    && DiffEnv(Get(s, "env"), Get(after, "env")) == Ok(q.env)
    && DiffExpose(Get(s, "expose"), Get(after, "expose")) == Ok(q.expose)
    && DiffStorage(s, after) == Ok(q.storage)
  }

  lemma ServiceDiffs(s: Fields, change: ServicePatch, r: Fields, after: Fields)
    requires Comparable(s, after) && ValidService(change) && Outcome(s, change, r) && SameNormal(after, r)
    ensures DiffService(s, after).Ok? && Narrows(DiffService(s, after).value, s, change, after)
  {
    hide DiffEnv, DiffExpose, DiffStorage, EnvResult, NormalEnv, ApplyExpose, ApplyStorage, DiffCredentials,
      VolumesAreObjects;
    assert SameField(after, r, "image") && SameField(after, r, "expose") && SameField(after, r, "params");
    assert Get(after, "command") == Get(r, "command") && Get(after, "args") == Get(r, "args");
    assert Get(after, "credentials") == Get(r, "credentials");
    ImageRoundTrip(s, change.image, r, after);
    CredentialsRoundTrip(Get(s, "credentials"), change.credentials, Get(after, "credentials"));
    EnvNarrows(Get(s, "env"), change.env, Get(after, "env"));
    ExposeRoundTrip(s, change.expose);
    StorageRoundTrip(s, change.storage, after);
  }

  lemma NarrowedService(s: Fields, change: ServicePatch, r: Fields, after: Fields, q: ServicePatch)
    requires Comparable(s, after) && ValidService(change) && Outcome(s, change, r) && SameNormal(after, r)
    requires Narrows(q, s, change, after)
    ensures ValidService(q) && ApplyService(s, q).Ok? && SameNormal(ApplyService(s, q).value, after)
  {
    hide DiffEnv, DiffExpose, DiffStorage, EnvResult, NormalEnv, ApplyExpose, ApplyStorage, ApplyService,
         ValidExpose, ValidEnvName, VolumesAreObjects;
    assert SameField(after, r, "image") && SameField(after, r, "expose") && SameField(after, r, "params");
    assert Get(after, "command") == Get(r, "command") && Get(after, "args") == Get(r, "args");
    assert Get(after, "credentials") == Get(r, "credentials");
    EnvNarrows(Get(s, "env"), change.env, Get(after, "env"));
    ExposeRoundTrip(s, change.expose);
    StorageRoundTrip(s, change.storage, after);
    assert ValidService(q);
    ServiceOutcome(s, q);
    NarrowedOutcome(s, change, r, after, q, ApplyService(s, q).value);
  }

  lemma NarrowedOutcome(s: Fields, change: ServicePatch, r: Fields, after: Fields, q: ServicePatch, t: Fields)
    requires Outcome(s, change, r) && SameNormal(after, r) && Outcome(s, q, t) && Narrows(q, s, change, after)
    requires ApplyExpose(s, q.expose) == ApplyExpose(s, change.expose)
    requires ApplyStorage(s, q.storage) == ApplyStorage(s, change.storage)
    requires NormalEnv(EnvResult(Get(s, "env"), q.env)) == NormalEnv(Get(after, "env"))
    ensures SameNormal(t, after)
  {
    hide DiffEnv, DiffExpose, DiffStorage, EnvResult, NormalEnv, ApplyExpose, ApplyStorage;
    assert Get(after, "command") == Get(r, "command") && Get(after, "args") == Get(r, "args");
    assert Get(after, "credentials") == Get(r, "credentials");
    forall k | k !in NORMALIZED ensures SameField(t, after, k) {
      assert SameField(after, r, k);
      if k == "image" {
      } else if k == "expose" {
      } else if k == "params" {
      } else {
        assert k !in EDITABLE;
        assert SameField(s, r, k) && SameField(s, t, k);
      }
    }
    assert Get(t, "command") == Get(after, "command") && Get(t, "args") == Get(after, "args");
    assert Get(t, "credentials") == Get(after, "credentials");
  }

  lemma ServiceRoundTrip(s: Fields, change: ServicePatch, after: Fields)
    requires Comparable(s, after) && ValidService(change) && ApplyService(s, change).Ok?
    requires NormalService(ApplyService(s, change).value) == NormalService(after)
    ensures DiffService(s, after).Ok?
    ensures var q := DiffService(s, after).value;
            ValidService(q) && ApplyService(s, q).Ok? && NormalService(ApplyService(s, q).value) == NormalService(after)
  {
    hide Comparable, ValidService, NormalService, DiffService, ApplyService, Outcome, SameNormal, Narrows;
    var r := ApplyService(s, change).value;
    ServiceOutcome(s, change);
    NormalFormsAgree(after, r);
    ServiceDiffs(s, change, r, after);
    var q := DiffService(s, after).value;
    NarrowedService(s, change, r, after, q);
    NormalFormsAgree(ApplyService(s, q).value, after);
  }

  lemma NoChangeKeeps(s: Fields)
    ensures ValidService(NoChange) && ApplyService(s, NoChange) == Ok(s)
  {
  }

  // ---------------------------------------------------------------- documents

  ghost predicate WellFormed(document: Fields) {
    && Get(document, "services").Obj?
    && forall name :: name in document["services"].fields ==>
         && document["services"].fields[name].Obj?
         && EnvListed(Get(document["services"].fields[name].fields, "env"))
         && VolumesAreObjects(document["services"].fields[name].fields)
  }

  // The edit a patch makes to a service, none when it does not name it.
  function ChangeOf(patch: Patch, name: string): ServicePatch {
    if name in patch then patch[name] else NoChange
  }

  lemma PatchedIsApplied(services: Fields, patch: Patch, name: string)
    requires name in services && services[name].Obj?
    requires name in patch ==> ServiceAccepts(services, name, patch)
    ensures ApplyService(services[name].fields, ChangeOf(patch, name)).Ok?
    ensures PatchedService(services, name, patch) == Obj(ApplyService(services[name].fields, ChangeOf(patch,
            name)).value)
  {
    hide ApplyService;
    NoChangeKeeps(services[name].fields);
  }

  ghost predicate ServicesComparable(was: Fields, now: Fields) {
    forall name :: name in was ==>
      was[name].Obj? && (name in now && now[name].Obj? ==> Comparable(was[name].fields, now[name].fields))
  }

  lemma SameNormalServices(a: Fields, b: Fields, name: string)
    requires NormalServices(a) == NormalServices(b) && name in a && a[name].Obj?
    ensures name in b && b[name].Obj? && NormalService(a[name].fields) == NormalService(b[name].fields)
  {
    hide NormalService;
    assert name in NormalServices(a) && name in NormalServices(b);
    assert NormalServices(a)[name] == NormalServices(b)[name];
  }

  // Diff's candidate edits, service by service.
  lemma CandidateService(was: Fields, now: Fields, applied: Fields, patch: Patch, name: string)
    requires Validate(patch) && ServicesComparable(was, now) && name in was
    requires forall k :: k in patch ==> ServiceAccepts(was, k, patch)
    requires applied == map k | k in was :: PatchedService(was, k, patch)
    requires NormalServices(applied) == NormalServices(now)
    ensures ServiceDiffable(was, now, name)
    ensures var q := ServiceEdit(was, now, name);
            && ValidService(q)
            && was[name].Obj? && ApplyService(was[name].fields, q).Ok?
            && NormalService(ApplyService(was[name].fields, q).value) == NormalService(now[name].fields)
  {
    hide NormalService, NormalServices, ApplyService, DiffService, ValidService, Comparable;
    PatchedIsApplied(was, patch, name);
    SameNormalServices(applied, now, name);
    NoChangeKeeps(was[name].fields);
    assert ValidService(ChangeOf(patch, name));
    ServiceRoundTrip(was[name].fields, ChangeOf(patch, name), now[name].fields);
  }

  lemma CandidateApplies(was: Fields, now: Fields, applied: Fields, patch: Patch)
    requires Validate(patch) && ServicesComparable(was, now)
    requires forall k :: k in patch ==> ServiceAccepts(was, k, patch)
    requires applied == map k | k in was :: PatchedService(was, k, patch)
    requires NormalServices(applied) == NormalServices(now)
    ensures now.Keys == was.Keys
    ensures forall name :: name in now ==> ServiceDiffable(was, now, name)
    ensures var q := ServiceEdits(was, now);
            && Validate(q)
            && (forall k :: k in q ==> ServiceAccepts(was, k, q))
            && NormalServices(map k | k in was :: PatchedService(was, k, q)) == NormalServices(now)
  {
    hide NormalService, ApplyService, DiffService, ValidService, Comparable;
    assert NormalServices(applied).Keys == was.Keys && NormalServices(now).Keys == now.Keys;
    forall name | name in was
      ensures ServiceDiffable(was, now, name)
      ensures ValidService(ServiceEdit(was, now, name)) && was[name].Obj? && now[name].Obj?
      ensures ApplyService(was[name].fields, ServiceEdit(was, now, name)).Ok?
      ensures NormalService(ApplyService(was[name].fields, ServiceEdit(was, now, name)).value)
           == NormalService(now[name].fields)
    {
      CandidateService(was, now, applied, patch, name);
    }
    var q := ServiceEdits(was, now);
    forall name | name in was
      ensures name in q ==> ServiceAccepts(was, name, q)
      ensures ChangeOf(q, name) == ServiceEdit(was, now, name)
    {
    }
    var result := map k | k in was :: PatchedService(was, k, q);
    forall name | name in was ensures result[name] == Obj(ApplyService(was[name].fields, ServiceEdit(was, now,
           name)).value) {
      PatchedIsApplied(was, q, name);
    }
  }

  lemma SameFieldsEqual(a: Fields, b: Fields)
    requires forall k :: SameField(a, b, k)
    ensures a == b
  {
    assert forall k :: k in a ==> SameField(a, b, k);
    assert forall k :: k in b ==> SameField(a, b, k);
  }

  lemma NormalDocuments(a: Fields, b: Fields)
    requires Get(a, "services").Obj?
    ensures Normal(a) == Normal(b) <==>
              && SameExcept(a, b, {"services"})
              && Get(b, "services").Obj?
              && NormalServices(a["services"].fields) == NormalServices(b["services"].fields)
  {
    hide NormalServices;
    assert forall k :: k != "services" ==> SameField(a, Normal(a), k) && SameField(b, Normal(b), k);
    if Normal(a) == Normal(b) {
      assert Normal(b)["services"] == Normal(a)["services"];
      forall k | k !in {"services"} ensures SameField(a, b, k) { assert SameField(Normal(a), Normal(b), k); }
    }
    if && SameExcept(a, b, {"services"}) && Get(b, "services").Obj?
       && NormalServices(a["services"].fields) == NormalServices(b["services"].fields)
    {
      forall k ensures SameField(Normal(a), Normal(b), k) {
        if k != "services" { assert SameField(a, b, k); }
      }
      SameFieldsEqual(Normal(a), Normal(b));
    }
  }

  lemma AppliedDocument(document: Fields, patch: Patch)
    requires Apply(document, patch).Ok?
    ensures var services := document["services"].fields;
            && Validate(patch) && (forall k :: k in patch ==> ServiceAccepts(services, k, patch))
            && Apply(document, patch).value["services"] == Obj(map k | k in services :: PatchedService(services, k,
               patch))
            && SameExcept(document, Apply(document, patch).value, {"services"})
  {
    hide ServiceAccepts, PatchedService, Validate;
  }

  // If a valid patch turns `current` into `requested` up to normal form, Diff
  // succeeds.
  lemma DiffFinds(current: Fields, requested: Fields, patch: Patch)
    requires Apply(current, patch).Ok? && Normal(Apply(current, patch).value) == Normal(requested)
    requires Get(requested, "services").Obj? ==>
               ServicesComparable(current["services"].fields, requested["services"].fields)
    ensures Diff(current, requested).Ok?
  {
    hide NormalServices, Validate, ServiceAccepts, PatchedService, ServiceDiffable, ServicesComparable, Normal;
    var applied := Apply(current, patch).value;
    AppliedDocument(current, patch);
    NormalDocuments(applied, requested);
    var was, now := current["services"].fields, requested["services"].fields;
    CandidateApplies(was, now, applied["services"].fields, patch);
    var q := ServiceEdits(was, now);
    assert Candidate(current, requested) == Ok(q);
    assert Apply(current, q).Ok?;
    AppliedDocument(current, q);
    NormalDocuments(Apply(current, q).value, requested);
  }

  // On well-formed documents Diff succeeds exactly on the representable
  // requests, and its patch then produces the request.
  lemma DiffExact(current: Fields, requested: Fields)
    requires WellFormed(current)
    ensures Diff(current, requested).Ok? <==>
              exists p :: Apply(current, p).Ok? && Normal(Apply(current, p).value) == Normal(requested)
    ensures Diff(current, requested).Ok? ==>
              var q := Diff(current, requested).value;
              Apply(current, q).Ok? && Normal(Apply(current, q).value) == Normal(requested)
  {
    hide Apply, Normal, Candidate;
    if p :| Apply(current, p).Ok? && Normal(Apply(current, p).value) == Normal(requested) {
      DiffFinds(current, requested, p);
    }
  }

  // Diff undoes to a patch what Apply did, whatever the document: exactly when
  // services and volumes are objects and each environment is listed or left
  // as it was.
  ghost predicate Recoverable(current: Fields, patch: Patch)
    requires Get(current, "services").Obj?
  {
    var services := current["services"].fields;
    forall name :: name in services ==>
      && services[name].Obj?
      && VolumesAreObjects(services[name].fields)
      && var env := Get(services[name].fields, "env");
         EnvListed(env) || EnvResult(env, ChangeOf(patch, name).env) == env
  }

  lemma EnvAfter(services: Fields, patch: Patch, name: string)
    requires name in services && services[name].Obj?
    requires name in patch ==> ServiceAccepts(services, name, patch)
    ensures PatchedService(services, name, patch).Obj?
    ensures Get(PatchedService(services, name, patch).fields, "env")
         == EnvResult(Get(services[name].fields, "env"), ChangeOf(patch, name).env)
  {
    PatchedIsApplied(services, patch, name);
    ServiceOutcome(services[name].fields, ChangeOf(patch, name));
  }

  lemma RecoverableSuffices(current: Fields, patch: Patch)
    requires Apply(current, patch).Ok? && Recoverable(current, patch)
    ensures Diff(current, Apply(current, patch).value).Ok?
  {
    hide ApplyService, VolumesAreObjects, EnvListed, EnvResult, PatchedService, ServiceAccepts, Validate, Normal, Diff;
    var after := Apply(current, patch).value;
    AppliedDocument(current, patch);
    var was, now := current["services"].fields, after["services"].fields;
    forall name | name in was && now[name].Obj? ensures Comparable(was[name].fields, now[name].fields) {
      EnvAfter(was, patch, name);
    }
    DiffFinds(current, after, patch);
  }

  lemma VolumesWereObjects(s: Fields, change: ServicePatch)
    requires ApplyService(s, change).Ok? && ValidService(change)
    requires DiffStorage(s, ApplyService(s, change).value).Ok?
    ensures VolumesAreObjects(s)
  {
    hide DiffVolume, VolumeChanged, ApplyService, ValidService;
    ServiceFrame(s, change);
    var after := ApplyService(s, change).value;
    forall name | name in Volumes(s) ensures Volumes(s)[name].Obj? {
      assert name in Volumes(after);
      assert VolumeDiffable(name, Volumes(s), Volumes(after));
    }
  }

  lemma RecoverableNeeded(current: Fields, patch: Patch)
    requires Apply(current, patch).Ok? && Diff(current, Apply(current, patch).value).Ok?
    ensures Recoverable(current, patch)
  {
    hide ApplyService, VolumesAreObjects, EnvListed, EnvResult, PatchedService, ServiceAccepts, ValidService, Normal,
         DiffImage, DiffCredentials, DiffExpose, DiffStorage, DiffClearable;
    var after := Apply(current, patch).value;
    AppliedDocument(current, patch);
    var was, now := current["services"].fields, after["services"].fields;
    assert Candidate(current, after).Ok?;
    NoChangeKeeps(map[]);
    forall name | name in was
      ensures was[name].Obj? && VolumesAreObjects(was[name].fields)
      ensures var env := Get(was[name].fields, "env");
              EnvListed(env) || EnvResult(env, ChangeOf(patch, name).env) == env
    {
      assert ServiceDiffable(was, now, name);
      PatchedIsApplied(was, patch, name);
      EnvAfter(was, patch, name);
      assert ValidService(ChangeOf(patch, name));
      VolumesWereObjects(was[name].fields, ChangeOf(patch, name));
    }
  }

  lemma RoundTripExactly(current: Fields, patch: Patch)
    requires Apply(current, patch).Ok?
    ensures Diff(current, Apply(current, patch).value).Ok? <==> Recoverable(current, patch)
  {
    hide Diff, Recoverable;
    if Recoverable(current, patch) {
      RecoverableSuffices(current, patch);
    } else if Diff(current, Apply(current, patch).value).Ok? {
      RecoverableNeeded(current, patch);
    }
  }
}
