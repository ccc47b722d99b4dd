// The same laws for leases and bids.
module SyncFoldMarket {
  import opened Basics
  import opened SyncRecords
  import opened SyncFold

  // ------------------------------------------------------------------- leases

  datatype LeaseWrite =
    | LeaseReported(record: LeaseRecord, now: int)
    | LeaseCreated(id: Id, price: string, now: int)
    | LeaseClosed(id: Id, now: int)

  function LeaseId(w: LeaseWrite): Id {
    if w.LeaseReported? then w.record.id else w.id
  }

  function LeaseKey(w: LeaseWrite): string {
    RecordKey(LeaseId(w))
  }

  function IncomingLease(existing: Option<LeaseRecord>, w: LeaseWrite): LeaseRecord {
    match w
    case LeaseReported(record, now) => MergeLease(existing, record, now)
    case LeaseCreated(id, price, now) => LeaseRecord(id, "active", price, "", [], now, 0, 0)
    case LeaseClosed(id, now) =>
      var base := if existing.Some? then existing.value else LeaseRecord(id, "", "", "", [], 0, 0, 0);
      base.(state := "closed", closedAt := now)
  }

  function PutLease(existing: Option<LeaseRecord>, w: LeaseWrite): LeaseRecord {
    var r := IncomingLease(existing, w);
    var version := if existing.Some? then Some(existing.value.recordVersion) else None;
    r.(recordVersion := NextVersion(version, r.recordVersion))
  }

  ghost predicate LeasesReported(ws: seq<LeaseWrite>) {
    forall i :: 0 <= i < |ws| ==> ws[i].LeaseReported?
  }

  lemma {:induction false} LeaseReconcilesKeepLocal(x: LeaseRecord, ws: seq<LeaseWrite>)
    requires LeasesReported(ws)
    ensures var r := Run(Some(x), ws, PutLease).value;
            && r.providerUri == x.providerUri && r.endpoints == x.endpoints
            && (x.createdAt != 0 ==> r.createdAt == x.createdAt)
            && (x.closedAt != 0 ==> r.closedAt == x.closedAt)
    decreases |ws|
  {
    if ws != [] { LeaseReconcilesKeepLocal(PutLease(Some(x), ws[0]), ws[1..]); }
  }

  function LeaseEssence(r: LeaseRecord): LeaseRecord {
    r.(recordVersion := 0)
  }

  // The chain's part of a lease.
  function LeaseChain(r: LeaseRecord): LeaseRecord {
    r.(providerUri := "", endpoints := [], createdAt := 0, closedAt := 0, recordVersion := 0)
  }

  predicate LeaseAbsorbed(x: LeaseRecord, w: LeaseWrite) {
    w.LeaseReported? && x.createdAt != 0 && (w.record.state == "closed" ==> x.closedAt != 0)
  }

  lemma {:induction false} LeaseRunAbsorbs(o: Option<LeaseRecord>, ws: seq<LeaseWrite>, i: nat)
    requires LeasesReported(ws) && i < |ws| && forall k :: 0 <= k < |ws| ==> ws[k].now != 0
    ensures LeaseAbsorbed(Run(o, ws, PutLease).value, ws[i])
    decreases |ws|
  {
    var x := PutLease(o, ws[0]);
    if i == 0 {
      LeaseReconcilesKeepLocal(x, ws[1..]);
    } else {
      LeaseRunAbsorbs(Some(x), ws[1..], i - 1);
    }
  }

  lemma {:induction false} LeaseRunAbsorbed(x: LeaseRecord, ws: seq<LeaseWrite>)
    requires forall i :: 0 <= i < |ws| ==> LeaseAbsorbed(x, ws[i])
    ensures var r := Run(Some(x), ws, PutLease).value;
            && r.providerUri == x.providerUri && r.endpoints == x.endpoints
            && r.createdAt == x.createdAt && r.closedAt == x.closedAt
            && (ws != [] ==> ws[|ws| - 1].LeaseReported? && LeaseChain(r) == LeaseChain(ws[|ws| - 1].record))
    decreases |ws|
  {
    if ws != [] {
      LeaseRunAbsorbed(PutLease(Some(x), ws[0]), ws[1..]);
      if |ws| > 1 { assert ws[1..][|ws| - 2] == ws[|ws| - 1]; }
    }
  }

  lemma {:induction false} LastLeaseReportWins(o: Option<LeaseRecord>, ws: seq<LeaseWrite>)
    requires LeasesReported(ws) && ws != []
    ensures LeaseChain(Run(o, ws, PutLease).value) == LeaseChain(ws[|ws| - 1].record)
    decreases |ws|
  {
    if |ws| > 1 {
      LastLeaseReportWins(Some(PutLease(o, ws[0])), ws[1..]);
      assert ws[1..][|ws| - 2] == ws[|ws| - 1];
    }
  }

  lemma LeaseReconcileIdempotent(o: Option<LeaseRecord>, a: seq<LeaseWrite>, b: seq<LeaseWrite>)
    requires LeasesReported(a) && LeasesReported(b) && |a| == |b| && a != []
    requires forall i :: 0 <= i < |a| ==> LeaseChain(a[i].record) == LeaseChain(b[i].record) && a[i].now != 0
    ensures var once := Run(o, a, PutLease);
            LeaseEssence(Run(once, b, PutLease).value) == LeaseEssence(once.value)
  {
    LastLeaseReportWins(o, a);
    var x := Run(o, a, PutLease).value;
    forall i | 0 <= i < |b| ensures LeaseAbsorbed(x, b[i]) {
      LeaseRunAbsorbs(o, a, i);
      assert LeaseChain(a[i].record).state == LeaseChain(b[i].record).state;
    }
    LeaseRunAbsorbed(x, b);
  }

  // --------------------------------------------------------------------- bids

  datatype BidWrite =
    | BidReported(record: BidRecord, now: int)
    | BidCreated(id: Id, price: string, now: int)
    | BidClosed(id: Id)
    | BidMatched(id: Id)

  function BidId(w: BidWrite): Id {
    if w.BidReported? then w.record.id else w.id
  }

  function BidKey(w: BidWrite): string {
    RecordKey(BidId(w))
  }

  function IncomingBid(existing: Option<BidRecord>, w: BidWrite): BidRecord {
    match w
    case BidReported(record, now) => MergeBid(existing, record, now)
    case BidCreated(id, price, now) => BidRecord(id, "open", price, None, false, now, 0)
    case BidClosed(id) => BaseBid(existing, id).(state := "closed")
    case BidMatched(id) => BaseBid(existing, id).(state := "matched")
  }

  function BaseBid(existing: Option<BidRecord>, id: Id): BidRecord {
    if existing.Some? then existing.value else BidRecord(id, "", "", None, false, 0, 0)
  }

  function PutBid(existing: Option<BidRecord>, w: BidWrite): BidRecord {
    var r := IncomingBid(existing, w);
    var version := if existing.Some? then Some(existing.value.recordVersion) else None;
    r.(recordVersion := NextVersion(version, r.recordVersion))
  }

  ghost predicate BidsReported(ws: seq<BidWrite>) {
    forall i :: 0 <= i < |ws| ==> ws[i].BidReported?
  }

  function BidEssence(r: BidRecord): BidRecord {
    r.(recordVersion := 0)
  }

  // Provider metadata: a report that has it replaces it, one without keeps it.
  datatype Metadata = Metadata(attributes: Option<map<string, string>>, audited: bool)

  function MetadataOf(r: BidRecord): Metadata {
    Metadata(r.attributes, r.audited)
  }

  ghost function MetadataAfter(m: Metadata, ws: seq<BidWrite>): Metadata
    requires BidsReported(ws)
    decreases |ws|
  {
    if ws == [] then m
    else MetadataAfter(if ws[0].record.attributes.Some? then MetadataOf(ws[0].record) else m, ws[1..])
  }

  // A batch either fixes the metadata or leaves it alone.
  lemma {:induction false} MetadataSettles(m: Metadata, n: Metadata, ws: seq<BidWrite>)
    requires BidsReported(ws)
    ensures MetadataAfter(m, ws) == MetadataAfter(n, ws) || (MetadataAfter(m, ws) == m && MetadataAfter(n, ws) == n)
    decreases |ws|
  {
    if ws != [] {
      var r := ws[0].record;
      MetadataSettles(if r.attributes.Some? then MetadataOf(r) else m, if r.attributes.Some? then MetadataOf(r)
        else n, ws[1..]);
    }
  }

  lemma {:induction false} BidRun(x: BidRecord, ws: seq<BidWrite>)
    requires BidsReported(ws)
    ensures var r := Run(Some(x), ws, PutBid).value;
            && MetadataOf(r) == MetadataAfter(MetadataOf(x), ws)
            && (x.createdAt != 0 ==> r.createdAt == x.createdAt)
            && (ws == [] ==> r == x)
            && (ws != [] ==>
                  && r.id == ws[|ws| - 1].record.id && r.state == ws[|ws| - 1].record.state
                  && r.price == ws[|ws| - 1].record.price)
            && (ws != [] && (x.createdAt != 0 || forall i :: 0 <= i < |ws| ==> ws[i].now != 0) ==> r.createdAt != 0)
    decreases |ws|
  {
    if ws != [] {
      BidRun(PutBid(Some(x), ws[0]), ws[1..]);
      if |ws| > 1 { assert ws[1..][|ws| - 2] == ws[|ws| - 1]; }
    }
  }

  lemma BidReconcileIdempotent(o: Option<BidRecord>, a: seq<BidWrite>, b: seq<BidWrite>)
    requires BidsReported(a) && BidsReported(b) && |a| == |b| && a != []
    requires forall i :: 0 <= i < |a| ==> a[i].record == b[i].record && a[i].now != 0
    ensures var once := Run(o, a, PutBid);
            BidEssence(Run(once, b, PutBid).value) == BidEssence(once.value)
  {
    var first := PutBid(o, a[0]);
    var x := Run(o, a, PutBid).value;
    BidRun(first, a[1..]);
    BidRun(x, b);
    if |a| > 1 { assert a[1..][|a| - 2] == a[|a| - 1]; }
    SameMetadata(a, b, MetadataOf(x));
    FirstMetadata(o, a);
    MetadataSettles(MetadataOf(first), MetadataOf(x), a[1..]);
  }

  lemma {:induction false} SameMetadata(a: seq<BidWrite>, b: seq<BidWrite>, m: Metadata)
    requires BidsReported(a) && BidsReported(b) && |a| == |b| && forall i :: 0 <= i < |a| ==> a[i].record == b[i].record
    ensures MetadataAfter(m, a) == MetadataAfter(m, b)
    decreases |a|
  {
    if a != [] {
      SameMetadata(a[1..], b[1..], if a[0].record.attributes.Some? then MetadataOf(a[0].record) else m);
    }
  }

  // Replaying the batch on its own outcome keeps the metadata.
  lemma FirstMetadata(o: Option<BidRecord>, a: seq<BidWrite>)
    requires BidsReported(a) && a != []
    ensures var m := MetadataAfter(MetadataOf(PutBid(o, a[0])), a[1..]);
            MetadataAfter(m, a) == m
  {
    var first := MetadataOf(PutBid(o, a[0]));
    var m := MetadataAfter(first, a[1..]);
    var again := if a[0].record.attributes.Some? then MetadataOf(a[0].record) else m;
    MetadataSettles(again, first, a[1..]);
  }
}
