// The endpoint and volume halves of the round trip.
module SdlExposeLaws {
  import opened Basics
  import opened SdlDocument
  import opened SdlApply
  import opened SdlApplyLaws
  import opened SdlDiff

  // ------------------------------------------------------- decoding inverts

  lemma DecodeNumber(n: uint32)
    ensures DecodeUint32(Number(n)) == Ok(Some(n))
  {
    ParseDecimal(n);
  }

  lemma DecodeList(s: seq<string>)
    ensures DecodeStrings(Strings(s)) == Ok(Some(s))
  {
    assert DecodeStrings(Strings(s)).value.value == s;
  }

  // What a diff keeps of an assignment: nothing when the value is unchanged.
  function Narrowed<T>(before: Fields, after: Fields, name: string, change: Option<T>): Option<T> {
    if Get(before, name) == Get(after, name) then None else change
  }

  // A field that was written, or left alone, diffs to that assignment or to
  // nothing, and writing the diff gives the same object.
  lemma Uint32RoundTrip(before: Fields, after: Fields, name: string, change: Option<uint32>)
    requires if change.Some? then Get(after, name) == Number(change.value) else Get(after, name) == Get(before, name)
    ensures DiffUint32(before, after, name) == Ok(Narrowed(before, after, name, change))
  {
    if change.Some? { DecodeNumber(change.value); }
  }

  lemma StringsRoundTrip(before: Fields, after: Fields, name: string, change: Option<seq<string>>)
    requires if change.Some? then Get(after, name) == Strings(change.value) else Get(after, name) == Get(before, name)
    ensures DiffStrings(before, after, name) == Ok(Narrowed(before, after, name, change))
  {
    if change.Some? { DecodeList(change.value); }
  }

  // ------------------------------------------------------------- one endpoint

  lemma KeptPortsWrite(b: Fields, change: ExposePatch)
    ensures var after := MovePorts(b, change);
            && MovePorts(b, ExposePatch(Narrowed(b, after, "port", change.port), Narrowed(b, after, "as",
               change.external), None, None)) == after
            && (Get(b, "port") == Get(after, "port") && Get(b, "as") == Get(after, "as") ==> after == b)
  {
    MoveWrites(b, change);
  }

  // --------------------------------------------------------------- its options

  function NarrowedOptions(before: Fields, after: Fields, o: HttpOptionsPatch): HttpOptionsPatch {
    HttpOptionsPatch(
      Narrowed(before, after, "max_body_size", o.maxBodySize), Narrowed(before, after, "read_timeout", o.readTimeout),
      Narrowed(before, after, "send_timeout", o.sendTimeout), Narrowed(before, after, "next_tries", o.nextTries),
      Narrowed(before, after, "next_timeout", o.nextTimeout), Narrowed(before, after, "next_cases", o.nextCases))
  }

  lemma NarrowedAt(before: Fields, after: Fields, o: HttpOptionsPatch, name: string)
    ensures OptionValue(NarrowedOptions(before, after, o), name)
         == if Get(before, name) == Get(after, name) then Null else OptionValue(o, name)
  {
  }

  lemma OptionsAt(o: HttpOptionsPatch)
    ensures OptionValue(o, "max_body_size") == NumberOr(o.maxBodySize)
    ensures OptionValue(o, "read_timeout") == NumberOr(o.readTimeout)
    ensures OptionValue(o, "send_timeout") == NumberOr(o.sendTimeout)
    ensures OptionValue(o, "next_tries") == NumberOr(o.nextTries)
    ensures OptionValue(o, "next_timeout") == NumberOr(o.nextTimeout)
    ensures OptionValue(o, "next_cases") == if o.nextCases.Some? then Strings(o.nextCases.value) else Null
  {
  }

  lemma OptionsDiff(before: Fields, o: HttpOptionsPatch, after: Fields)
    requires after == before + OptionValues(o) && OptionsChanged(before, after)
    ensures DiffOptions(before, after) == Ok(Some(NarrowedOptions(before, after, o)))
  {
    hide DiffUint32, DiffStrings, Narrowed;
    OptionsAt(o);
    assert forall name :: name in OPTION_NAMES ==>
             Get(after, name) == if OptionValue(o, name).Null? then Get(before, name) else OptionValue(o, name);
    Uint32RoundTrip(before, after, "max_body_size", o.maxBodySize);
    Uint32RoundTrip(before, after, "read_timeout", o.readTimeout);
    Uint32RoundTrip(before, after, "send_timeout", o.sendTimeout);
    Uint32RoundTrip(before, after, "next_tries", o.nextTries);
    Uint32RoundTrip(before, after, "next_timeout", o.nextTimeout);
    StringsRoundTrip(before, after, "next_cases", o.nextCases);
  }

  // Leaving out assignments that change nothing does not change the outcome.
  lemma NarrowWrites(before: Fields, values: Fields, kept: Fields)
    requires forall k :: k in values ==> !values[k].Null?
    requires forall k :: k in kept <==> k in values && Get(before, k) != values[k]
    requires forall k :: k in kept ==> kept[k] == values[k]
    ensures before + kept == before + values
    ensures kept == map[] ==> before + values == before
    ensures forall k :: Get(before, k) != Get(before + values, k) <==> k in kept
  {
  }

  lemma NarrowedValues(before: Fields, o: HttpOptionsPatch, after: Fields, k: string)
    requires after == before + OptionValues(o)
    ensures var n := NarrowedOptions(before, after, o);
            && (k in OptionValues(n) <==> k in OptionValues(o) && Get(before, k) != OptionValues(o)[k])
            && (k in OptionValues(n) ==> k in OptionValues(o) && OptionValues(n)[k] == OptionValues(o)[k])
  {
    NarrowedAt(before, after, o, k);
  }

  lemma NarrowedWritesSame(before: Fields, o: HttpOptionsPatch, after: Fields)
    requires after == before + OptionValues(o)
    ensures var n := OptionValues(NarrowedOptions(before, after, o));
            && before + n == after
            && (OptionsChanged(before, after) <==> n != map[])
            && (n == map[] ==> after == before)
  {
    var v, n := OptionValues(o), OptionValues(NarrowedOptions(before, after, o));
    forall k
      ensures k in n <==> k in v && Get(before, k) != v[k]
      ensures k in n ==> k in v && n[k] == v[k]
    {
      NarrowedValues(before, o, after, k);
    }
    NarrowWrites(before, v, n);
    assert forall k :: k in n ==> k in OPTION_NAMES;
  }

  function KeptOptions(entry: Fields, o: Option<HttpOptionsPatch>): Option<HttpOptionsPatch> {
    var before, after := Options(entry), Options(WriteHttp(entry, o));
    if o.Some? && OptionsChanged(before, after) then Some(NarrowedOptions(before, after, o.value)) else None
  }

  lemma HttpDiff(entry: Fields, o: Option<HttpOptionsPatch>)
    ensures DiffOptions(Options(entry), Options(WriteHttp(entry, o))) == Ok(KeptOptions(entry, o))
  {
    var before, after := Options(entry), Options(WriteHttp(entry, o));
    if OptionsChanged(before, after) {
      assert o.Some? && after == before + OptionValues(o.value);
      OptionsDiff(before, o.value, after);
    }
  }

  lemma NarrowedValid(before: Fields, after: Fields, o: HttpOptionsPatch)
    requires ValidOptions(o)
    ensures ValidOptions(NarrowedOptions(before, after, o))
  {
  }

  lemma HttpWritten(entry: Fields, o: HttpOptionsPatch)
    requires OptionValues(o) != map[]
    ensures var after := Options(entry) + OptionValues(o);
            && Options(WriteHttp(entry, Some(o))) == after
            && (forall p :: WriteHttp(entry, Some(p)) ==
                  if OptionValues(p) == map[] then entry
                  else entry["http_options" := Obj(Options(entry) + OptionValues(p))])
            && (after == Options(entry) ==> WriteHttp(entry, Some(o)) == entry)
  {
    var before, values := Options(entry), OptionValues(o);
    hide OptionValues;
    assert values.Keys != {};
    if before + values == before {
      assert before != map[];
      assert Get(entry, "http_options") == Obj(before);
    }
  }

  lemma KeptOptionsWrite(entry: Fields, o: Option<HttpOptionsPatch>)
    requires o.Some? ==> ValidOptions(o.value)
    ensures KeptOptions(entry, o).Some? ==> ValidOptions(KeptOptions(entry, o).value)
    ensures WriteHttp(entry, KeptOptions(entry, o)) == WriteHttp(entry, o)
    ensures !OptionsChanged(Options(entry), Options(WriteHttp(entry, o))) ==> WriteHttp(entry, o) == entry
  {
    var before, after := Options(entry), Options(WriteHttp(entry, o));
    assert before == after ==> !OptionsChanged(before, after);
    hide OptionValues, NarrowedOptions, ValidOptions, OptionsChanged;
    if o.Some? && OptionValues(o.value) != map[] {
      HttpWritten(entry, o.value);
      hide Options, Get, ObjOf;
      NarrowedWritesSame(before, o.value, after);
      NarrowedValid(before, after, o.value);
    }
  }

  lemma KeptAcceptWrites(entry: Fields, accept: Option<seq<string>>)
    ensures var after := WriteAccept(entry, accept);
            && WriteAccept(entry, Narrowed(entry, after, "accept", accept)) == after
            && (Get(entry, "accept") == Get(after, "accept") ==> after == entry)
  {
  }

  // What the later steps write is not looked at by the earlier diffs.
  lemma EntryFieldsDisjoint(b: Fields, change: ExposePatch)
    ensures var m := MovePorts(b, change);
            var a := WriteAccept(m, change.accept);
            var after := WriteHttp(a, change.httpOptions);
            && Get(m, "port") == Get(after, "port") && Get(m, "as") == Get(after, "as")
            && Get(b, "accept") == Get(m, "accept") && Get(a, "accept") == Get(after, "accept")
            && Options(b) == Options(a)
  {
  }

  function Kept(b: Fields, change: ExposePatch): ExposePatch {
    var after := WriteOptions(MovePorts(b, change), change);
    ExposePatch(Narrowed(b, after, "port", change.port), Narrowed(b, after, "as", change.external),
                Narrowed(b, after, "accept", change.accept),
                KeptOptions(WriteAccept(MovePorts(b, change), change.accept), change.httpOptions))
  }

  lemma EntryDiff(b: Fields, change: ExposePatch)
    ensures DiffEntry(b, WriteOptions(MovePorts(b, change), change)) == Ok(Kept(b, change))
  {
    var m := MovePorts(b, change);
    var a := WriteAccept(m, change.accept);
    var after := WriteHttp(a, change.httpOptions);
    EntryFieldsDisjoint(b, change);
    MoveWrites(b, change);
    Uint32RoundTrip(b, after, "port", change.port);
    Uint32RoundTrip(b, after, "as", change.external);
    StringsRoundTrip(b, after, "accept", change.accept);
    HttpDiff(a, change.httpOptions);
  }

  lemma KeptWrites(b: Fields, change: ExposePatch)
    requires ValidExpose(change)
    ensures var moved := MovePorts(b, change);
            var after := WriteOptions(moved, change);
            && ValidExpose(Kept(b, change))
            && MovePorts(b, Kept(b, change)) == moved
            && WriteOptions(moved, Kept(b, change)) == after
            && (!EntryChanged(b, after) ==> moved == b && after == b)
  {
    var m := MovePorts(b, change);
    var a := WriteAccept(m, change.accept);
    EntryFieldsDisjoint(b, change);
    KeptPortsWrite(b, change);
    KeptAcceptWrites(m, change.accept);
    KeptOptionsWrite(a, change.httpOptions);
  }

  lemma EntryRoundTrip(b: Fields, change: ExposePatch)
    requires ValidExpose(change)
    ensures var moved := MovePorts(b, change);
            var after := WriteOptions(moved, change);
            && DiffEntry(b, after).Ok?
            && var e := DiffEntry(b, after).value;
               && ValidExpose(e)
               && (e.port.Some? ==> change.port.Some?)
               && MovePorts(b, e) == moved
               && WriteOptions(moved, e) == after
               && (!EntryChanged(b, after) ==> moved == b && after == b)
  {
    EntryDiff(b, change);
    KeptWrites(b, change);
  }

  // --------------------------------------------------------- all the endpoints

  lemma KeyIsUnique(before: seq<Fields>, patch: map<string, ExposePatch>, i: nat, j: nat)
    requires ExposeAllowed(before, patch) && i < |before| && j < |before|
    requires PatchFor(before[i], patch).Some? && Get(before[i], "port") == Get(before[j], "port")
    ensures i == j
  {
    var key := Get(before[i], "port").text;
    assert AddressesOne(key, before);
    assert Addresses(key, before[i]) && Addresses(key, before[j]);
  }

  ghost predicate ValidExposes(patch: map<string, ExposePatch>) {
    forall key :: key in patch ==> ValidExpose(patch[key])
  }

  ghost predicate IsEdited(before: seq<Fields>, after: seq<Fields>, patch: map<string, ExposePatch>) {
    |after| == |before| && forall i :: 0 <= i < |before| ==> after[i] == EditedEntry(before[i], patch)
  }

  lemma UnnamedUnchanged(before: seq<Fields>, after: seq<Fields>, patch: map<string, ExposePatch>, i: nat)
    requires IsEdited(before, after, patch) && ValidExposes(patch) && i < |before|
    ensures PatchFor(before[i], patch).None? ==> after[i] == before[i] && !EntryChanged(before[i], after[i])
    ensures DiffEntry(before[i], after[i]).Ok?
    ensures !EntryChanged(before[i], after[i]) ==> after[i] == before[i] && Moved(before[i], patch) == before[i]
  {
    if PatchFor(before[i], patch).Some? { EntryRoundTrip(before[i], PatchFor(before[i], patch).value); }
  }

  lemma EditsDiffable(before: seq<Fields>, after: seq<Fields>, patch: map<string, ExposePatch>)
    requires ExposeAllowed(before, patch) && IsEdited(before, after, patch) && ValidExposes(patch)
    ensures EntriesDiffable(before, after)
  {
    forall i | 0 <= i < |before|
      ensures EntryChanged(before[i], after[i]) ==>
                PatchFor(before[i], patch).Some? && DiffEntry(before[i], after[i]).Ok?
    {
      UnnamedUnchanged(before, after, patch, i);
    }
    forall i, j | 0 <= i < j < |before| && EntryChanged(before[i], after[i]) && EntryChanged(before[j], after[j])
      ensures Get(before[i], "port") != Get(before[j], "port")
    {
      if Get(before[i], "port") == Get(before[j], "port") { KeyIsUnique(before, patch, i, j); }
    }
  }

  // The derived edits address the changed endpoints, and only those.
  lemma EditsAddress(before: seq<Fields>, after: seq<Fields>, patch: map<string, ExposePatch>, i: nat)
    requires ExposeAllowed(before, patch) && IsEdited(before, after, patch) && ValidExposes(patch) && i < |before|
    requires EntriesDiffable(before, after)
    ensures PatchFor(before[i], EntryEdits(before, after))
         == if EntryChanged(before[i], after[i]) then Some(DiffEntry(before[i], after[i]).value) else None
  {
    hide EntryChanged, DiffEntry, ExposeAllowed, EditedEntry;
    var q := EntryEdits(before, after);
    if PatchFor(before[i], q).Some? {
      var j :| 0 <= j < |before| && EntryChanged(before[j], after[j])
               && Get(before[j], "port").text == Get(before[i], "port").text
               && PatchFor(before[i], q).value == DiffEntry(before[j], after[j]).value;
      UnnamedUnchanged(before, after, patch, j);
      assert Get(before[i], "port") == Get(before[j], "port");
      KeyIsUnique(before, patch, j, i);
    }
  }

  lemma EditsWriteSame(before: seq<Fields>, after: seq<Fields>, patch: map<string, ExposePatch>, i: nat)
    requires ExposeAllowed(before, patch) && IsEdited(before, after, patch) && ValidExposes(patch) && i < |before|
    requires EntriesDiffable(before, after)
    ensures var q := EntryEdits(before, after);
            && Moved(before[i], q) == Moved(before[i], patch)
            && EditedEntry(before[i], q) == after[i]
            && (PatchFor(before[i], q).Some? ==>
                  && PatchFor(before[i], patch).Some?
                  && (PatchFor(before[i], q).value.port.Some? ==> PatchFor(before[i], patch).value.port.Some?))
  {
    EditsAddress(before, after, patch, i);
    UnnamedUnchanged(before, after, patch, i);
    if PatchFor(before[i], patch).Some? { EntryRoundTrip(before[i], PatchFor(before[i], patch).value); }
  }

  lemma EditsAllowed(before: seq<Fields>, after: seq<Fields>, patch: map<string, ExposePatch>)
    requires ExposeAllowed(before, patch) && IsEdited(before, after, patch) && ValidExposes(patch)
    requires EntriesDiffable(before, after)
    ensures ExposeAllowed(before, EntryEdits(before, after)) && ValidExposes(EntryEdits(before, after))
  {
    hide EntryChanged, DiffEntry, MovePorts, WriteOptions, MoveAllowed, ValidExpose, ExternalPort;
    var q := EntryEdits(before, after);
    forall i | 0 <= i < |before|
      ensures Moved(before[i], q) == Moved(before[i], patch)
      ensures PatchFor(before[i], q).Some? ==>
                && PatchFor(before[i], patch).Some?
                && (PatchFor(before[i], q).value.port.Some? ==> PatchFor(before[i], patch).value.port.Some?)
    {
      EditsWriteSame(before, after, patch, i);
    }
    forall i | 0 <= i < |before| ensures EntryAllowed(i, before, q) {
      assert EntryAllowed(i, before, patch);
    }
    forall key | key in q ensures AddressesOne(key, before) && ValidExpose(q[key]) {
      var i :| 0 <= i < |before| && EntryChanged(before[i], after[i]) && Get(before[i], "port").text == key
               && q[key] == DiffEntry(before[i], after[i]).value;
      UnnamedUnchanged(before, after, patch, i);
      EntryRoundTrip(before[i], PatchFor(before[i], patch).value);
      assert AddressesOne(key, before);
    }
  }

  lemma NoEdit(entry: Fields)
    ensures EditedEntry(entry, map[]) == entry
  {
  }

  // Diffing what an accepted endpoint patch wrote gives an accepted endpoint
  // patch that writes the same.
  lemma ExposeRoundTrip(service: Fields, patch: map<string, ExposePatch>)
    requires ApplyExpose(service, patch).Ok? && ValidExposes(patch)
    ensures var after := ApplyExpose(service, patch).value;
            && DiffExpose(Get(service, "expose"), Get(after, "expose")).Ok?
            && var q := DiffExpose(Get(service, "expose"), Get(after, "expose")).value;
               ValidExposes(q) && ApplyExpose(service, q) == Ok(after)
  {
    hide EntryChanged, DiffEntry, ExposeAllowed, EditedEntry, EndpointKept, ValidExpose;
    var after := ApplyExpose(service, patch).value;
    if patch != map[] {
      ExposeFrame(service, patch);
      var items, edited := Get(service, "expose").items, Get(after, "expose").items;
      var b, a := Entries(items), Entries(edited);
      assert IsEdited(b, a, patch);
      if Get(service, "expose") == Get(after, "expose") {
        assert after == service;
      } else {
        EditsDiffable(b, a, patch);
        EditsAllowed(b, a, patch);
        var q := EntryEdits(b, a);
        forall i | 0 <= i < |b| ensures EditedEntry(b[i], q) == a[i] { EditsWriteSame(b, a, patch, i); }
        assert EditedExpose(b, q) == Get(after, "expose");
        assert q != map[] by {
          if q == map[] {
            forall i | 0 <= i < |b| ensures EditedEntry(b[i], q) == b[i] { NoEdit(b[i]); }
          }
        }
      }
    }
  }

  // ------------------------------------------------------------------ volumes

  function KeptVolume(volume: Fields, change: StoragePatch): StoragePatch {
    var after := EditedVolume(volume, change);
    StoragePatch(Narrowed(volume, after, "mount", change.mount), Narrowed(volume, after, "readOnly", change.readOnly))
  }

  lemma VolumeRoundTrip(volume: Fields, change: StoragePatch)
    ensures DiffVolume(volume, EditedVolume(volume, change)) == Ok(KeptVolume(volume, change))
    ensures EditedVolume(volume, KeptVolume(volume, change)) == EditedVolume(volume, change)
    ensures !VolumeChanged(volume, EditedVolume(volume, change)) ==> EditedVolume(volume, change) == volume
  {
  }

  ghost predicate VolumesAreObjects(service: Fields) {
    forall name :: name in Volumes(service) ==> Volumes(service)[name].Obj?
  }

  lemma SameVolumesSameParams(service: Fields, volumes: Fields)
    requires volumes == Volumes(service) && volumes != map[]
    ensures WriteVolumes(service, volumes) == service
  {
    var params := Get(service, "params");
    assert params.Obj? && Get(params.fields, "storage") == Obj(volumes);
    assert params.fields["storage" := Obj(volumes)] == params.fields;
  }

  lemma VolumesWritten(service: Fields, volumes: Fields)
    ensures Volumes(WriteVolumes(service, volumes)) == volumes
  {
  }

  lemma VolumeDiffs(volumes: Fields, patch: map<string, StoragePatch>, name: string)
    requires name in volumes && volumes[name].Obj?
    ensures VolumeDiffable(name, volumes, EditedVolumes(volumes, patch))
    ensures var was, now := volumes[name].fields, EditedVolumes(volumes, patch)[name].fields;
            if name in patch then
              && now == EditedVolume(was, patch[name])
              && DiffVolume(was, now) == Ok(KeptVolume(was, patch[name]))
              && EditedVolume(was, KeptVolume(was, patch[name])) == now
              && (!VolumeChanged(was, now) ==> now == was)
            else now == was && !VolumeChanged(was, now)
  {
    if name in patch { VolumeRoundTrip(volumes[name].fields, patch[name]); }
  }

  // The edits diffStorage derives from edited volumes, applied again.
  lemma StorageRoundTrip(service: Fields, patch: map<string, StoragePatch>, after: Fields)
    requires VolumesAreObjects(service) && ApplyStorage(service, patch).Ok?
    requires Get(after, "params") == Get(ApplyStorage(service, patch).value, "params")
    ensures DiffStorage(service, after).Ok?
    ensures ApplyStorage(service, DiffStorage(service, after).value) == ApplyStorage(service, patch)
  {
    var was, now := Volumes(service), Volumes(after);
    if patch == map[] {
      assert EditedVolumes(was, patch) == was;
    } else {
      VolumesWritten(service, EditedVolumes(was, patch));
    }
    assert now == EditedVolumes(was, patch);
    StorageEdits(service, patch, after);
  }

  lemma StorageEdits(service: Fields, patch: map<string, StoragePatch>, after: Fields)
    requires VolumesAreObjects(service) && ApplyStorage(service, patch).Ok?
    requires Volumes(after) == EditedVolumes(Volumes(service), patch)
    ensures DiffStorage(service, after).Ok?
    ensures ApplyStorage(service, DiffStorage(service, after).value) == ApplyStorage(service, patch)
  {
    hide VolumeChanged, DiffVolume, EditedVolume, KeptVolume;
    var was, now := Volumes(service), Volumes(after);
    forall name | name in now ensures VolumeDiffable(name, was, now) { VolumeDiffs(was, patch, name); }
    var q := DiffStorage(service, after).value;
    forall name | name in was
      ensures now[name] == if name in q then Obj(EditedVolume(was[name].fields, q[name])) else was[name]
    {
      VolumeDiffs(was, patch, name);
    }
    assert EditedVolumes(was, q) == now;
    assert forall name :: name in q ==> Get(was, name).Obj?;
    if q == map[] && patch != map[] {
      assert EditedVolumes(was, q) == was;
      var name :| name in patch;
      assert Get(was, name).Obj?;
      SameVolumesSameParams(service, was);
    } else if patch == map[] {
      forall name | name in now ensures name !in q { VolumeDiffs(was, patch, name); }
    }
  }
}
