// Sequences of writes to the local store: what any number of reconciliations
// and chain events leaves in a record.
module SyncFold {
  import opened Basics
  import opened SyncRecords

  // ------------------------------------------------------- buckets of records

  function Lookup<R>(bucket: map<string, R>, key: string): Option<R> {
    if key in bucket then Some(bucket[key]) else None
  }

  // A bucket after a sequence of keyed writes.
  ghost function Fold<R, W>(bucket: map<string, R>, ws: seq<W>, key: W -> string, put: (Option<R>,
                            W) -> R): map<string, R>
    decreases |ws|
  {
    if ws == [] then bucket
    else Fold(bucket[key(ws[0]) := put(Lookup(bucket, key(ws[0])), ws[0])], ws[1..], key, put)
  }

  // One record after the writes that name it.
  ghost function Run<R, W>(record: Option<R>, ws: seq<W>, put: (Option<R>, W) -> R): (r: Option<R>)
    ensures r.Some? <==> record.Some? || ws != []
    decreases |ws|
  {
    if ws == [] then record else Run(Some(put(record, ws[0])), ws[1..], put)
  }

  ghost function Select<W>(ws: seq<W>, key: W -> string, k: string): seq<W> {
    if ws == [] then [] else (if key(ws[0]) == k then [ws[0]] else []) + Select(ws[1..], key, k)
  }

  // Writes touch only the record they name.
  lemma {:induction false} FoldAt<R, W>(bucket: map<string, R>, ws: seq<W>, key: W -> string, put: (Option<R>,
                                        W) -> R, k: string)
    ensures Lookup(Fold(bucket, ws, key, put), k) == Run(Lookup(bucket, k), Select(ws, key, k), put)
    decreases |ws|
  {
    if ws != [] {
      FoldAt(bucket[key(ws[0]) := put(Lookup(bucket, key(ws[0])), ws[0])], ws[1..], key, put, k);
      var rest := Select(ws[1..], key, k);
      if key(ws[0]) == k {
        assert ([ws[0]] + rest)[1..] == rest;
      } else {
        assert [] + rest == rest;
      }
    }
  }

  lemma FoldOne<R, W>(bucket: map<string, R>, w: W, key: W -> string, put: (Option<R>, W) -> R)
    ensures Fold(bucket, [w], key, put) == bucket[key(w) := put(Lookup(bucket, key(w)), w)]
  {
    assert [w][1..] == [];
  }

  lemma {:induction false} FoldConcat<R, W>(bucket: map<string, R>, a: seq<W>, b: seq<W>, key: W -> string,
                                            put: (Option<R>, W) -> R)
    ensures Fold(bucket, a + b, key, put) == Fold(Fold(bucket, a, key, put), b, key, put)
    decreases |a|
  {
    if a == [] {
      assert a + b == b;
    } else {
      assert (a + b)[1..] == a[1..] + b;
      FoldConcat(bucket[key(a[0]) := put(Lookup(bucket, key(a[0])), a[0])], a[1..], b, key, put);
    }
  }

  lemma {:induction false} SelectMembers<W>(ws: seq<W>, key: W -> string, k: string)
    ensures forall w :: w in Select(ws, key, k) <==> w in ws && key(w) == k
  {
    if ws != [] {
      SelectMembers(ws[1..], key, k);
      assert ws == [ws[0]] + ws[1..];
    }
  }

  // -------------------------------------------------------------- deployments

  datatype DeploymentWrite =
    | Reported(record: DeploymentRecord, now: int)
    | CreatedEvent(owner: string, dseq: nat, hash: string, now: int)
    | UpdatedEvent(owner: string, dseq: nat, hash: string, now: int)
    | ClosedEvent(owner: string, dseq: nat, now: int)

  function DeploymentOwner(w: DeploymentWrite): string {
    if w.Reported? then w.record.owner else w.owner
  }

  function WriteKey(w: DeploymentWrite): string {
    DeploymentKey(DeploymentOwner(w), if w.Reported? then w.record.dseq else w.dseq)
  }

  function BlankDeployment(owner: string, dseq: nat): DeploymentRecord {
    DeploymentRecord(owner, dseq, "", "", "", "", 0, NothingLocal, 0, 0, 0, 0)
  }

  // The record each kind of write hands to the store.
  function Incoming(existing: Option<DeploymentRecord>, w: DeploymentWrite): DeploymentRecord {
    match w
    case Reported(record, now) => MergeDeployment(existing, record, now)
    case CreatedEvent(owner, dseq, hash, now) =>
      BlankDeployment(owner, dseq).(state := "active", version := hash, createdAt := now, updatedAt := now)
    case UpdatedEvent(owner, dseq, hash, now) =>
      var base := if existing.Some? then existing.value
                  else BlankDeployment(owner, dseq).(state := "active", createdAt := now);
      base.(version := hash, updatedAt := now)
    case ClosedEvent(owner, dseq, now) =>
      var base := if existing.Some? then existing.value else BlankDeployment(owner, dseq);
      base.(state := "closed", closedAt := now, updatedAt := now)
  }

  function PutDeployment(existing: Option<DeploymentRecord>, w: DeploymentWrite): DeploymentRecord {
    var r := Incoming(existing, w);
    var version := if existing.Some? then Some(existing.value.recordVersion) else None;
    r.(recordVersion := NextVersion(version, r.recordVersion))
  }

  ghost predicate AllReported(ws: seq<DeploymentWrite>) {
    forall i :: 0 <= i < |ws| ==> ws[i].Reported?
  }

  // Any number of reconciliations keeps the local-only fields and the first
  // non-zero creation and closing times.
  lemma {:induction false} ReconcilesKeepLocal(x: DeploymentRecord, ws: seq<DeploymentWrite>)
    requires AllReported(ws)
    ensures var r := Run(Some(x), ws, PutDeployment);
            && r.Some? && r.value.local == x.local
            && (x.createdAt != 0 ==> r.value.createdAt == x.createdAt)
            && (x.closedAt != 0 ==> r.value.closedAt == x.closedAt)
    decreases |ws|
  {
    if ws != [] { ReconcilesKeepLocal(PutDeployment(Some(x), ws[0]), ws[1..]); }
  }

  // What the chain says about a deployment.
  function ChainPart(r: DeploymentRecord): DeploymentRecord {
    r.(local := NothingLocal, createdAt := 0, updatedAt := 0, closedAt := 0, recordVersion := 0)
  }

  // A record equal to another up to the update time and the store's counter.
  function Essence(r: DeploymentRecord): DeploymentRecord {
    r.(updatedAt := 0, recordVersion := 0)
  }

  predicate Absorbed(x: DeploymentRecord, w: DeploymentWrite) {
    w.Reported? && x.createdAt != 0 && (w.record.state == "closed" ==> x.closedAt != 0)
  }

  lemma {:induction false} AbsorbedStays(x: DeploymentRecord, ws: seq<DeploymentWrite>, w: DeploymentWrite)
    requires AllReported(ws) && Absorbed(x, w)
    ensures Absorbed(Run(Some(x), ws, PutDeployment).value, w)
    decreases |ws|
  {
    if ws != [] { AbsorbedStays(PutDeployment(Some(x), ws[0]), ws[1..], w); }
  }

  lemma {:induction false} RunAbsorbs(o: Option<DeploymentRecord>, ws: seq<DeploymentWrite>, i: nat)
    requires AllReported(ws) && i < |ws| && forall k :: 0 <= k < |ws| ==> ws[k].now != 0
    ensures Run(o, ws, PutDeployment).Some? && Absorbed(Run(o, ws, PutDeployment).value, ws[i])
    decreases |ws|
  {
    var x := PutDeployment(o, ws[0]);
    if i == 0 {
      AbsorbedStays(x, ws[1..], ws[0]);
      ReconcilesKeepLocal(x, ws[1..]);
    } else {
      RunAbsorbs(Some(x), ws[1..], i - 1);
    }
  }

  lemma {:induction false} RunAbsorbed(x: DeploymentRecord, ws: seq<DeploymentWrite>)
    requires forall i :: 0 <= i < |ws| ==> Absorbed(x, ws[i])
    ensures var r := Run(Some(x), ws, PutDeployment).value;
            && r.local == x.local && r.createdAt == x.createdAt && r.closedAt == x.closedAt
            && (ws != [] ==> ws[|ws| - 1].Reported? && ChainPart(r) == ChainPart(ws[|ws| - 1].record))
    decreases |ws|
  {
    if ws != [] {
      var y := PutDeployment(Some(x), ws[0]);
      RunAbsorbed(y, ws[1..]);
      if |ws| > 1 { assert ws[1..][|ws| - 2] == ws[|ws| - 1]; }
    }
  }

  lemma {:induction false} LastReportWins(o: Option<DeploymentRecord>, ws: seq<DeploymentWrite>)
    requires AllReported(ws) && ws != []
    ensures Run(o, ws, PutDeployment).Some?
    ensures ChainPart(Run(o, ws, PutDeployment).value) == ChainPart(ws[|ws| - 1].record)
    decreases |ws|
  {
    if |ws| > 1 {
      LastReportWins(Some(PutDeployment(o, ws[0])), ws[1..]);
      assert ws[1..][|ws| - 2] == ws[|ws| - 1];
    }
  }

  // Two runs see the same chain: same reports, at possibly different times.
  ghost predicate SameReports(a: seq<DeploymentWrite>, b: seq<DeploymentWrite>) {
    && |a| == |b| && AllReported(a) && AllReported(b)
    && forall i :: 0 <= i < |a| ==> ChainPart(a[i].record) == ChainPart(b[i].record)
  }

  // Reconciling an unchanged chain again changes nothing essential.
  lemma ReconcileIdempotent(o: Option<DeploymentRecord>, a: seq<DeploymentWrite>, b: seq<DeploymentWrite>)
    requires SameReports(a, b) && a != []
    requires forall i :: 0 <= i < |a| ==> a[i].now != 0
    ensures var once := Run(o, a, PutDeployment);
            var twice := Run(once, b, PutDeployment);
            once.Some? && twice.Some? && Essence(twice.value) == Essence(once.value)
  {
    LastReportWins(o, a);
    var x := Run(o, a, PutDeployment).value;
    forall i | 0 <= i < |b| ensures Absorbed(x, b[i]) {
      RunAbsorbs(o, a, i);
      assert ChainPart(a[i].record).state == ChainPart(b[i].record).state;
    }
    RunAbsorbed(x, b);
  }

  // ------------------------------------------------------------ event histories

  ghost predicate AllEvents(ws: seq<DeploymentWrite>) {
    forall i :: 0 <= i < |ws| ==> !ws[i].Reported?
  }

  // Once closed, only a Created event reopens.
  lemma {:induction false} ClosedStaysClosed(x: DeploymentRecord, ws: seq<DeploymentWrite>)
    requires AllEvents(ws) && x.state == "closed" && forall i :: 0 <= i < |ws| ==> !ws[i].CreatedEvent?
    ensures Run(Some(x), ws, PutDeployment).Some? && Run(Some(x), ws, PutDeployment).value.state == "closed"
    decreases |ws|
  {
    if ws != [] { ClosedStaysClosed(PutDeployment(Some(x), ws[0]), ws[1..]); }
  }

  // What the chain itself holds after a history: closed exactly when the last
  // lifecycle event is a closing, at the version last announced.
  ghost function ChainClosed(ws: seq<DeploymentWrite>): bool {
    if ws == [] then false
    else
      var last := ws[|ws| - 1];
      if last.ClosedEvent? then true else if last.CreatedEvent? then false else ChainClosed(ws[..|ws| - 1])
  }

  ghost function ChainVersion(ws: seq<DeploymentWrite>): string {
    if ws == [] then ""
    else
      var last := ws[|ws| - 1];
      if last.CreatedEvent? || last.UpdatedEvent? then last.hash else ChainVersion(ws[..|ws| - 1])
  }

  lemma {:induction false} RunSnoc<R, W>(o: Option<R>, ws: seq<W>, w: W, put: (Option<R>, W) -> R)
    ensures Run(o, ws + [w], put) == Some(put(Run(o, ws, put), w))
    decreases |ws|
  {
    if ws == [] {
      assert ws + [w] == [w];
    } else {
      assert (ws + [w])[1..] == ws[1..] + [w];
      RunSnoc(Some(put(o, ws[0])), ws[1..], w, put);
    }
  }

  lemma EventStep(o: Option<DeploymentRecord>, w: DeploymentWrite)
    requires !w.Reported?
    ensures var r := PutDeployment(o, w);
            && r.state == (if w.ClosedEvent? then "closed" else if w.UpdatedEvent?
               && o.Some? then o.value.state else "active")
            && r.version == (if w.ClosedEvent? then (if o.Some? then o.value.version else "") else w.hash)
  {
  }

  // Folding a history that begins with the creation refines the chain, from
  // any earlier record.
  lemma {:induction false} EventsRefineChain(o: Option<DeploymentRecord>, ws: seq<DeploymentWrite>)
    requires AllEvents(ws) && ws != [] && ws[0].CreatedEvent?
    ensures var r := Run(o, ws, PutDeployment);
            && r.Some?
            && r.value.state == (if ChainClosed(ws) then "closed" else "active")
            && r.value.version == ChainVersion(ws)
    decreases |ws|
  {
    hide PutDeployment, Run;
    var front, last := ws[..|ws| - 1], ws[|ws| - 1];
    assert ws == front + [last];
    RunSnoc(o, front, last, PutDeployment);
    EventStep(Run(o, front, PutDeployment), last);
    if front != [] { EventsRefineChain(o, front); }
  }

  // The two paths agree: a reconciliation of the state the history produced
  // writes the same state and version the events left.
  lemma PathsAgree(o: Option<DeploymentRecord>, p: Option<DeploymentRecord>, ws: seq<DeploymentWrite>,
                   report: DeploymentRecord, now: int)
    requires AllEvents(ws) && ws != [] && ws[0].CreatedEvent?
    requires report.state == (if ChainClosed(ws) then "closed" else "active") && report.version == ChainVersion(ws)
    ensures var folded, reported := Run(o, ws, PutDeployment), PutDeployment(p, Reported(report, now));
            folded.Some? && folded.value.state == reported.state && folded.value.version == reported.version
  {
    EventsRefineChain(o, ws);
  }

  // A Created event replaces the whole record, local fields included: local
  // data survives a mixed sequence exactly when no Created event is in it.
  lemma {:induction false} LocalSurvives(x: DeploymentRecord, ws: seq<DeploymentWrite>)
    ensures var r := Run(Some(x), ws, PutDeployment);
            r.Some? && r.value.local == if exists i :: 0 <= i < |ws| && ws[i].CreatedEvent? then NothingLocal
                                        else x.local
    decreases |ws|
  {
    if ws != [] {
      var front, last := ws[..|ws| - 1], ws[|ws| - 1];
      assert ws == front + [last];
      RunSnoc(Some(x), front, last, PutDeployment);
      LocalSurvives(x, front);
      if !last.CreatedEvent? && exists i :: 0 <= i < |ws| && ws[i].CreatedEvent? {
        var i :| 0 <= i < |ws| && ws[i].CreatedEvent?;
        assert front[i].CreatedEvent?;
      }
    }
  }
}
