// Whole-store consequences: idempotent reconciliation, untouched strangers,
// and event histories that refine the chain.
module SyncLaws {
  import opened Basics
  import opened SyncRecords
  import opened SyncFold
  import opened SyncFoldMarket
  import opened SyncPlans
  import opened SyncEngine

  // ------------------------------------------------------------ idempotence

  lemma {:induction false} SelectAligned<W>(a: seq<W>, b: seq<W>, key: W -> string, k: string, rel: (W, W) -> bool)
    requires |a| == |b| && forall i :: 0 <= i < |a| ==> rel(a[i], b[i]) && key(a[i]) == key(b[i])
    ensures var x, y := Select(a, key, k), Select(b, key, k);
            |x| == |y| && forall i :: 0 <= i < |x| ==> rel(x[i], y[i])
  {
    if a != [] { SelectAligned(a[1..], b[1..], key, k, rel); }
  }

  // Two readings of one chain differ only in the time stamps of the reader.
  ghost predicate SameChain(c: Chain, d: Chain) {
    && (forall owner :: |c.deployments(owner)| == |d.deployments(owner)|
          && forall i :: 0 <= i < |c.deployments(owner)| ==>
             ChainPart(c.deployments(owner)[i]) == ChainPart(d.deployments(owner)[i]))
    && (forall owner, dseq :: c.leases(owner, dseq) == d.leases(owner, dseq))
    && (forall owner, dseq :: c.bids(owner, dseq) == d.bids(owner, dseq))
  }

  predicate SameDeploymentReport(a: DeploymentWrite, b: DeploymentWrite) {
    a.Reported? && b.Reported? && a.now != 0 && ChainPart(a.record) == ChainPart(b.record)
  }

  predicate SameLeaseReport(a: LeaseWrite, b: LeaseWrite) {
    a.LeaseReported? && b.LeaseReported? && a.now != 0 && LeaseChain(a.record) == LeaseChain(b.record)
  }

  predicate SameBidReport(a: BidWrite, b: BidWrite) {
    a.BidReported? && b.BidReported? && a.now != 0 && a.record == b.record
  }

  ghost predicate Aligned(a: Batch, b: Batch) {
    && |a.deployments| == |b.deployments| && |a.leases| == |b.leases| && |a.bids| == |b.bids|
    && (forall i :: 0 <= i < |a.deployments| ==> SameDeploymentReport(a.deployments[i], b.deployments[i]))
    && (forall i :: 0 <= i < |a.leases| ==> SameLeaseReport(a.leases[i], b.leases[i]))
    && (forall i :: 0 <= i < |a.bids| ==> SameBidReport(a.bids[i], b.bids[i]))
  }

  lemma AlignedAppend(a: Batch, b: Batch, c: Batch, d: Batch)
    requires Aligned(a, b) && Aligned(c, d)
    ensures Aligned(Append(a, c), Append(b, d))
  {
    hide SameDeploymentReport, SameLeaseReport, SameBidReport;
  }

  lemma {:induction false} OwnerAligned(c: Chain, d: Chain, owner: string, xs: seq<DeploymentRecord>,
                                        ys: seq<DeploymentRecord>, n: int, m: int)
    requires SameChain(c, d) && n != 0 && |xs| == |ys|
    requires forall i :: 0 <= i < |xs| ==> ChainPart(xs[i]) == ChainPart(ys[i])
    ensures Aligned(OneOwner(c, owner, xs, n), OneOwner(d, owner, ys, m))
  {
    if xs != [] {
      var x, y := xs[|xs| - 1], ys[|ys| - 1];
      OwnerAligned(c, d, owner, xs[..|xs| - 1], ys[..|ys| - 1], n, m);
      assert ChainPart(x).dseq == ChainPart(y).dseq;
      assert Aligned(OneDeployment(c, owner, x, n), OneDeployment(d, owner, y, m));
      AlignedAppend(OneOwner(c, owner, xs[..|xs| - 1], n), OneOwner(d, owner, ys[..|ys| - 1], m),
                    OneDeployment(c, owner, x, n), OneDeployment(d, owner, y, m));
    }
  }

  lemma {:induction false} EverythingAligned(c: Chain, d: Chain, owners: seq<string>, n: int, m: int)
    requires SameChain(c, d) && n != 0
    ensures Aligned(Everything(c, owners, n), Everything(d, owners, m))
  {
    if owners != [] {
      var front, owner := owners[..|owners| - 1], owners[|owners| - 1];
      EverythingAligned(c, d, front, n, m);
      OwnerAligned(c, d, owner, c.deployments(owner), d.deployments(owner), n, m);
      AlignedAppend(Everything(c, front, n), Everything(d, front, m),
                    OneOwner(c, owner, c.deployments(owner), n), OneOwner(d, owner, d.deployments(owner), m));
    }
  }

  predicate SameDeployment(a: Option<DeploymentRecord>, b: Option<DeploymentRecord>) {
    a == b || (a.Some? && b.Some? && Essence(a.value) == Essence(b.value))
  }

  predicate SameLease(a: Option<LeaseRecord>, b: Option<LeaseRecord>) {
    a == b || (a.Some? && b.Some? && LeaseEssence(a.value) == LeaseEssence(b.value))
  }

  predicate SameBid(a: Option<BidRecord>, b: Option<BidRecord>) {
    a == b || (a.Some? && b.Some? && BidEssence(a.value) == BidEssence(b.value))
  }

  lemma DeploymentsSettle(bucket: map<string, DeploymentRecord>, a: seq<DeploymentWrite>, b: seq<DeploymentWrite>,
                          k: string)
    requires |a| == |b| && forall i :: 0 <= i < |a| ==> SameDeploymentReport(a[i], b[i])
    ensures var once := Fold(bucket, a, WriteKey, PutDeployment);
            SameDeployment(Lookup(once, k), Lookup(Fold(once, b, WriteKey, PutDeployment), k))
  {
    var once := Fold(bucket, a, WriteKey, PutDeployment);
    FoldAt(bucket, a, WriteKey, PutDeployment, k);
    FoldAt(once, b, WriteKey, PutDeployment, k);
    forall i | 0 <= i < |a| ensures WriteKey(a[i]) == WriteKey(b[i]) {
      assert ChainPart(a[i].record).owner == ChainPart(b[i].record).owner;
      assert ChainPart(a[i].record).dseq == ChainPart(b[i].record).dseq;
    }
    SelectAligned(a, b, WriteKey, k, SameDeploymentReport);
    var x, y := Select(a, WriteKey, k), Select(b, WriteKey, k);
    if x != [] { ReconcileIdempotent(Lookup(bucket, k), x, y); }
  }

  lemma LeasesSettle(bucket: map<string, LeaseRecord>, a: seq<LeaseWrite>, b: seq<LeaseWrite>, k: string)
    requires |a| == |b| && forall i :: 0 <= i < |a| ==> SameLeaseReport(a[i], b[i])
    ensures var once := Fold(bucket, a, LeaseKey, PutLease);
            SameLease(Lookup(once, k), Lookup(Fold(once, b, LeaseKey, PutLease), k))
  {
    var once := Fold(bucket, a, LeaseKey, PutLease);
    FoldAt(bucket, a, LeaseKey, PutLease, k);
    FoldAt(once, b, LeaseKey, PutLease, k);
    forall i | 0 <= i < |a| ensures LeaseKey(a[i]) == LeaseKey(b[i]) {
      assert LeaseChain(a[i].record).id == LeaseChain(b[i].record).id;
    }
    SelectAligned(a, b, LeaseKey, k, SameLeaseReport);
    var x, y := Select(a, LeaseKey, k), Select(b, LeaseKey, k);
    if x != [] { LeaseReconcileIdempotent(Lookup(bucket, k), x, y); }
  }

  lemma BidsSettle(bucket: map<string, BidRecord>, a: seq<BidWrite>, b: seq<BidWrite>, k: string)
    requires |a| == |b| && forall i :: 0 <= i < |a| ==> SameBidReport(a[i], b[i])
    ensures var once := Fold(bucket, a, BidKey, PutBid);
            SameBid(Lookup(once, k), Lookup(Fold(once, b, BidKey, PutBid), k))
  {
    var once := Fold(bucket, a, BidKey, PutBid);
    FoldAt(bucket, a, BidKey, PutBid, k);
    FoldAt(once, b, BidKey, PutBid, k);
    SelectAligned(a, b, BidKey, k, SameBidReport);
    var x, y := Select(a, BidKey, k), Select(b, BidKey, k);
    if x != [] { BidReconcileIdempotent(Lookup(bucket, k), x, y); }
  }

  // ReconcileNow on an unchanged chain is idempotent, record by record, up to
  // update times and the store's own counters.
  lemma ReconcileNowIdempotent(s: Store, c: Chain, d: Chain, owners: seq<string>, n: int, m: int, k: string)
    requires SameChain(c, d) && n != 0
    ensures var once := Apply(s, Everything(c, owners, n));
            var twice := Apply(once, Everything(d, owners, m));
            && SameDeployment(Lookup(once.deployments, k), Lookup(twice.deployments, k))
            && SameLease(Lookup(once.leases, k), Lookup(twice.leases, k))
            && SameBid(Lookup(once.bids, k), Lookup(twice.bids, k))
  {
    hide SameDeployment, SameLease, SameBid, SameDeploymentReport, SameLeaseReport, SameBidReport, SameChain;
    EverythingAligned(c, d, owners, n, m);
    var a, b := Everything(c, owners, n), Everything(d, owners, m);
    DeploymentsSettle(s.deployments, a.deployments, b.deployments, k);
    LeasesSettle(s.leases, a.leases, b.leases, k);
    BidsSettle(s.bids, a.bids, b.bids, k);
  }

  // -------------------------------------------------------------- strangers

  lemma {:induction false} UnnamedUnselected<W>(ws: seq<W>, key: W -> string, k: string)
    requires forall i :: 0 <= i < |ws| ==> key(ws[i]) != k
    ensures Select(ws, key, k) == []
  {
    if ws != [] { UnnamedUnselected(ws[1..], key, k); }
  }

  // Records no write names stay as they are.
  lemma UnnamedUntouched<R, W>(bucket: map<string, R>, ws: seq<W>, key: W -> string, put: (Option<R>, W) -> R,
                               k: string)
    requires forall i :: 0 <= i < |ws| ==> key(ws[i]) != k
    ensures Lookup(Fold(bucket, ws, key, put), k) == Lookup(bucket, k)
  {
    FoldAt(bucket, ws, key, put, k);
    UnnamedUnselected(ws, key, k);
  }

  // A node that answers about an owner with that owner's deployments.
  ghost predicate OwnerFaithful(node: NodeScript) {
    forall n: nat, owner :: node(n, DeploymentsOf(owner)).Ok? && node(n, DeploymentsOf(owner)).value.Deployments? ==>
      forall d :: d in node(n, DeploymentsOf(owner)).value.deployments ==> d.owner == owner
  }

  ghost predicate MarketFaithful(node: NodeScript) {
    && (forall n: nat, owner, dseq :: node(n, LeasesOf(owner, dseq)).Ok?
                                      && node(n, LeasesOf(owner, dseq)).value.Leases? ==>
          forall l :: l in node(n, LeasesOf(owner, dseq)).value.leases ==> l.id.owner == owner)
    && (forall n: nat, owner, dseq :: node(n, BidsOf(owner, dseq)).Ok? && node(n, BidsOf(owner, dseq)).value.Bids? ==>
          forall b :: b in node(n, BidsOf(owner, dseq)).value.bids ==> b.id.owner == owner)
  }

  // Lease and bid keys separate owners without a colon in their name.
  ghost predicate ForeignWrites(tracked: set<string>, b: Batch) {
    && (forall i :: 0 <= i < |b.leases| ==> LeaseId(b.leases[i]).owner in tracked)
    && (forall i :: 0 <= i < |b.bids| ==> BidId(b.bids[i]).owner in tracked)
  }

  lemma MarketUntouched(s: Store, tracked: set<string>, b: Batch, id: Id)
    requires ForeignWrites(tracked, b) && id.owner !in tracked
    requires ColonFree(id.owner) && forall owner :: owner in tracked ==> ColonFree(owner)
    ensures Lookup(Apply(s, b).leases, RecordKey(id)) == Lookup(s.leases, RecordKey(id))
    ensures Lookup(Apply(s, b).bids, RecordKey(id)) == Lookup(s.bids, RecordKey(id))
  {
    hide PutLease, PutBid, PutDeployment, RecordKey, Fold;
    forall i | 0 <= i < |b.leases| ensures LeaseKey(b.leases[i]) != RecordKey(id) {
      if LeaseKey(b.leases[i]) == RecordKey(id) { RecordKeyInjective(LeaseId(b.leases[i]), id); }
    }
    forall i | 0 <= i < |b.bids| ensures BidKey(b.bids[i]) != RecordKey(id) {
      if BidKey(b.bids[i]) == RecordKey(id) { RecordKeyInjective(BidId(b.bids[i]), id); }
    }
    UnnamedUntouched(s.leases, b.leases, LeaseKey, PutLease, RecordKey(id));
    UnnamedUntouched(s.bids, b.bids, BidKey, PutBid, RecordKey(id));
  }

  // A reconciliation, complete or cut short, leaves the leases and bids of an
  // untracked owner alone.
  lemma ReconcileLeavesUntrackedMarket(s: Store, node: NodeScript, tracked: set<string>, q: nat, now: int,
                                       done: seq<Planned>, id: Id)
    requires MarketFaithful(node) && Reconciled(node, tracked, q, now, done) && id.owner !in tracked
    requires ColonFree(id.owner) && forall owner :: owner in tracked ==> ColonFree(owner)
    ensures Lookup(Apply(s, Written(done)).leases, RecordKey(id)) == Lookup(s.leases, RecordKey(id))
    ensures Lookup(Apply(s, Written(done)).bids, RecordKey(id)) == Lookup(s.bids, RecordKey(id))
  {
    ReconciledFromNode(node, tracked, q, now, done);
    var b := Written(done);
    hide Written, Reconciled;
    forall i | 0 <= i < |b.leases| ensures LeaseId(b.leases[i]).owner in tracked {
      assert Sourced(node, tracked, OfLease(b.leases[i]));
    }
    forall i | 0 <= i < |b.bids| ensures BidId(b.bids[i]).owner in tracked {
      assert Sourced(node, tracked, OfBid(b.bids[i]));
    }
    MarketUntouched(s, tracked, b, id);
  }

  // And its deployments.
  lemma ReconcileLeavesUntracked(s: Store, node: NodeScript, tracked: set<string>, q: nat, now: int,
                                 done: seq<Planned>, owner: string, dseq: nat)
    requires OwnerFaithful(node) && Reconciled(node, tracked, q, now, done) && owner !in tracked
    ensures Lookup(Apply(s, Written(done)).deployments, DeploymentKey(owner, dseq))
         == Lookup(s.deployments, DeploymentKey(owner, dseq))
  {
    ReconciledFromNode(node, tracked, q, now, done);
    var b := Written(done);
    hide Written, Reconciled, Apply;
    forall i | 0 <= i < |b.deployments| ensures DeploymentOwner(b.deployments[i]) in tracked {
      assert Sourced(node, tracked, OfDeployment(b.deployments[i]));
    }
    DeploymentUntouched(s, tracked, b, owner, dseq);
  }

  // ------------------------------------------------------------ local-only data

  // One reconciliation after another, each complete or cut short, against any
  // nodes at any times.
  datatype Pass = Pass(node: NodeScript, q: nat, now: int, done: seq<Planned>)

  ghost predicate Runs(tracked: set<string>, runs: seq<Pass>) {
    forall i :: 0 <= i < |runs| ==> Reconciled(runs[i].node, tracked, runs[i].q, runs[i].now, runs[i].done)
  }

  ghost function AfterRuns(s: Store, runs: seq<Pass>): Store {
    if runs == [] then s else Apply(AfterRuns(s, runs[..|runs| - 1]), Written(runs[|runs| - 1].done))
  }

  // What a later record keeps of an earlier one.
  ghost predicate DeploymentKept(before: Option<DeploymentRecord>, after: Option<DeploymentRecord>) {
    before.Some? ==>
      && after.Some? && after.value.local == before.value.local
      && (before.value.createdAt != 0 ==> after.value.createdAt == before.value.createdAt)
      && (before.value.closedAt != 0 ==> after.value.closedAt == before.value.closedAt)
  }

  ghost predicate LeaseKept(before: Option<LeaseRecord>, after: Option<LeaseRecord>) {
    before.Some? ==>
      && after.Some? && after.value.providerUri == before.value.providerUri
      && after.value.endpoints == before.value.endpoints
      && (before.value.createdAt != 0 ==> after.value.createdAt == before.value.createdAt)
      && (before.value.closedAt != 0 ==> after.value.closedAt == before.value.closedAt)
  }

  ghost predicate BidKept(before: Option<BidRecord>, after: Option<BidRecord>) {
    before.Some? ==> after.Some? && (before.value.createdAt != 0 ==> after.value.createdAt == before.value.createdAt)
  }

  ghost predicate StoreKept(before: Store, after: Store, k: string) {
    && DeploymentKept(Lookup(before.deployments, k), Lookup(after.deployments, k))
    && LeaseKept(Lookup(before.leases, k), Lookup(after.leases, k))
    && BidKept(Lookup(before.bids, k), Lookup(after.bids, k))
  }

  lemma BatchKeeps(s: Store, node: NodeScript, tracked: set<string>, b: Batch, k: string)
    requires FromNode(node, tracked, b)
    ensures StoreKept(s, Apply(s, b), k)
  {
    hide Fold, Run, Select, PutDeployment, PutLease, PutBid, RecordKey, DeploymentKey;
    var ds, ls, bs := Select(b.deployments, WriteKey, k), Select(b.leases, LeaseKey, k), Select(b.bids, BidKey, k);
    FoldAt(s.deployments, b.deployments, WriteKey, PutDeployment, k);
    FoldAt(s.leases, b.leases, LeaseKey, PutLease, k);
    FoldAt(s.bids, b.bids, BidKey, PutBid, k);
    SelectMembers(b.deployments, WriteKey, k);
    SelectMembers(b.leases, LeaseKey, k);
    SelectMembers(b.bids, BidKey, k);
    forall i | 0 <= i < |ds| ensures ds[i].Reported? { assert ds[i] in b.deployments; }
    forall i | 0 <= i < |ls| ensures ls[i].LeaseReported? { assert ls[i] in b.leases; }
    forall i | 0 <= i < |bs| ensures bs[i].BidReported? { assert bs[i] in b.bids; }
    if k in s.deployments { ReconcilesKeepLocal(s.deployments[k], ds); }
    if k in s.leases { LeaseReconcilesKeepLocal(s.leases[k], ls); }
    if k in s.bids { BidRun(s.bids[k], bs); }
  }

  // Over any number of reconciliations, complete or cut short, every record in
  // the store keeps its local-only data and its first times.
  lemma {:induction false} RunsKeepLocal(s: Store, tracked: set<string>, runs: seq<Pass>, k: string)
    requires Runs(tracked, runs)
    ensures StoreKept(s, AfterRuns(s, runs), k)
    decreases |runs|
  {
    hide Apply, Written, Reconciled, Lookup;
    if runs != [] {
      var last := runs[|runs| - 1];
      var before := AfterRuns(s, runs[..|runs| - 1]);
      RunsKeepLocal(s, tracked, runs[..|runs| - 1], k);
      ReconciledFromNode(last.node, tracked, last.q, last.now, last.done);
      BatchKeeps(before, last.node, tracked, Written(last.done), k);
    }
  }

  // ---------------------------------------------------------- event sequences

  datatype Timed = Timed(event: Event, now: int)

  // The store after a sequence of handled events.
  ghost function Handled(s: Store, tracked: set<string>, es: seq<Timed>): Store {
    if es == [] then s
    else
      var before := Handled(s, tracked, es[..|es| - 1]);
      var last := es[|es| - 1];
      Apply(before, EventWrites(tracked, before.bids.Keys, last.event, last.now))
  }

  ghost function DeploymentHistory(tracked: set<string>, es: seq<Timed>): seq<DeploymentWrite> {
    if es == [] then []
    else DeploymentHistory(tracked, es[..|es| - 1]) + EventWrites(tracked, {}, es[|es| - 1].event,
      es[|es| - 1].now).deployments
  }

  lemma {:induction false} HandledDeployments(s: Store, tracked: set<string>, es: seq<Timed>)
    ensures Handled(s, tracked, es).deployments == Fold(s.deployments, DeploymentHistory(tracked, es), WriteKey,
            PutDeployment)
  {
    if es != [] {
      var front, last := es[..|es| - 1], es[|es| - 1];
      var before := Handled(s, tracked, front);
      var written := EventWrites(tracked, before.bids.Keys, last.event, last.now);
      assert Handled(s, tracked, es) == Apply(before, written);
      assert written.deployments == EventWrites(tracked, {}, last.event, last.now).deployments;
      assert Apply(before, written).deployments == Fold(before.deployments, written.deployments, WriteKey,
             PutDeployment);
      hide Handled, EventWrites, Apply, Fold, WriteKey, PutDeployment;
      HandledDeployments(s, tracked, front);
      FoldConcat(s.deployments, DeploymentHistory(tracked, front),
                 EventWrites(tracked, {}, last.event, last.now).deployments, WriteKey, PutDeployment);
    }
  }

  lemma {:induction false} HistoryIsEvents(tracked: set<string>, es: seq<Timed>)
    ensures AllEvents(DeploymentHistory(tracked, es))
    ensures forall i :: 0 <= i < |DeploymentHistory(tracked, es)| ==>
            DeploymentOwner(DeploymentHistory(tracked, es)[i]) in tracked
  {
    if es != [] { HistoryIsEvents(tracked, es[..|es| - 1]); }
  }

  // A run of the engine over events: the stores between them, whatever
  // accesses failed.
  ghost predicate EventRun(stores: seq<Store>, tracked: set<string>, es: seq<Timed>) {
    && |stores| == |es| + 1
    && forall i :: 0 <= i < |es| ==> Handles(stores[i], stores[i + 1], tracked, es[i].event, es[i].now)
  }

  // Every write an event may leave names a tracked owner; a deployment's
  // writes are the event's own.
  lemma HandledWrites(before: Store, after: Store, tracked: set<string>, e: Event, now: int) returns (b: Batch)
    requires Handles(before, after, tracked, e, now)
    ensures after == Apply(before, b) && ForeignWrites(tracked, b)
    ensures b.deployments == [] || b.deployments == EventWrites(tracked, {}, e, now).deployments
    ensures forall i :: 0 <= i < |b.deployments| ==> DeploymentOwner(b.deployments[i]) in tracked
  {
    ApplyOne(before);
    hide Apply, RecordKey, DeploymentKey, PutDeployment, PutLease, PutBid;
    if after == before {
      b := NoWrites;
    } else if after == Apply(before, EventWrites(tracked, before.bids.Keys, e, now)) {
      b := EventWrites(tracked, before.bids.Keys, e, now);
    } else {
      b := Batch([], [LeaseCreated(e.id, e.price, now)], []);
    }
  }

  lemma {:induction false} EventsLeaveUntracked(stores: seq<Store>, tracked: set<string>, es: seq<Timed>,
                                                owner: string, dseq: nat)
    requires EventRun(stores, tracked, es) && owner !in tracked
    ensures Lookup(stores[|es|].deployments, DeploymentKey(owner, dseq)) == Lookup(stores[0].deployments,
            DeploymentKey(owner, dseq))
    decreases |es|
  {
    if es != [] {
      var n := |es| - 1;
      hide DeploymentKey, Handles, Apply, EventWrites;
      EventsLeaveUntracked(stores[..n + 1], tracked, es[..n], owner, dseq);
      var b := HandledWrites(stores[n], stores[n + 1], tracked, es[n].event, es[n].now);
      DeploymentUntouched(stores[n], tracked, b, owner, dseq);
    }
  }

  lemma DeploymentUntouched(s: Store, tracked: set<string>, b: Batch, owner: string, dseq: nat)
    requires owner !in tracked && forall i :: 0 <= i < |b.deployments| ==> DeploymentOwner(b.deployments[i]) in tracked
    ensures Lookup(Apply(s, b).deployments, DeploymentKey(owner, dseq)) == Lookup(s.deployments, DeploymentKey(owner,
            dseq))
  {
    hide PutDeployment, Fold;
    var k := DeploymentKey(owner, dseq);
    forall i | 0 <= i < |b.deployments| ensures WriteKey(b.deployments[i]) != k {
      if WriteKey(b.deployments[i]) == k { WriteKeyNames(b.deployments[i], owner, dseq); }
    }
    UnnamedUntouched(s.deployments, b.deployments, WriteKey, PutDeployment, k);
  }

  // A write to a deployment's key is a write to that deployment.
  lemma WriteKeyNames(w: DeploymentWrite, owner: string, dseq: nat)
    requires WriteKey(w) == DeploymentKey(owner, dseq)
    ensures DeploymentOwner(w) == owner && (!w.Reported? ==> w.dseq == dseq)
  {
    DeploymentKeyInjective(DeploymentOwner(w), if w.Reported? then w.record.dseq else w.dseq, owner, dseq);
  }

  lemma {:induction false} EventsLeaveUntrackedMarket(stores: seq<Store>, tracked: set<string>, es: seq<Timed>, id: Id)
    requires EventRun(stores, tracked, es) && id.owner !in tracked
    requires ColonFree(id.owner) && forall owner :: owner in tracked ==> ColonFree(owner)
    ensures Lookup(stores[|es|].leases, RecordKey(id)) == Lookup(stores[0].leases, RecordKey(id))
    ensures Lookup(stores[|es|].bids, RecordKey(id)) == Lookup(stores[0].bids, RecordKey(id))
    decreases |es|
  {
    if es != [] {
      var n := |es| - 1;
      hide RecordKey, Handles, Apply, EventWrites;
      EventsLeaveUntrackedMarket(stores[..n + 1], tracked, es[..n], id);
      var b := HandledWrites(stores[n], stores[n + 1], tracked, es[n].event, es[n].now);
      MarketUntouched(stores[n], tracked, b, id);
    }
  }

  ghost predicate ClosedIn(s: Store, k: string) { Lookup(s.deployments, k).Some? && Lookup(s.deployments,
                           k).value.state == "closed" }

  // A deployment closed in the store stays closed over any events, whatever
  // accesses fail, until one that creates that very deployment.
  lemma {:induction false} ClosedStaysClosedInStore(stores: seq<Store>, tracked: set<string>, es: seq<Timed>,
                                                    owner: string, dseq: nat)
    requires EventRun(stores, tracked, es) && ClosedIn(stores[0], DeploymentKey(owner, dseq))
    requires forall i :: 0 <= i < |es| ==>
               !(es[i].event.DeploymentCreatedEvent? && es[i].event.owner == owner && es[i].event.dseq == dseq)
    ensures ClosedIn(stores[|es|], DeploymentKey(owner, dseq))
    decreases |es|
  {
    if es != [] {
      var n := |es| - 1;
      hide ClosedIn, DeploymentKey, Handles, Apply, EventWrites;
      ClosedStaysClosedInStore(stores[..n + 1], tracked, es[..n], owner, dseq);
      var e := es[n];
      var b := HandledWrites(stores[n], stores[n + 1], tracked, e.event, e.now);
      ClosedKept(stores[n], tracked, b, e.event, e.now, owner, dseq);
    }
  }

  lemma ClosedKept(s: Store, tracked: set<string>, b: Batch, e: Event, now: int, owner: string, dseq: nat)
    requires ClosedIn(s, DeploymentKey(owner, dseq))
    requires b.deployments == [] || b.deployments == EventWrites(tracked, {}, e, now).deployments
    requires !(e.DeploymentCreatedEvent? && e.owner == owner && e.dseq == dseq)
    ensures ClosedIn(Apply(s, b), DeploymentKey(owner, dseq))
  {
    var k := DeploymentKey(owner, dseq);
    var own := Select(b.deployments, WriteKey, k);
    FoldAt(s.deployments, b.deployments, WriteKey, PutDeployment, k);
    SelectMembers(b.deployments, WriteKey, k);
    assert AllEvents(b.deployments);
    forall i | 0 <= i < |own| ensures !own[i].Reported? && !own[i].CreatedEvent? {
      assert own[i] in b.deployments && WriteKey(own[i]) == k;
      WriteKeyNames(own[i], owner, dseq);
    }
    ClosedStaysClosed(Lookup(s.deployments, k).value, own);
  }

  // For every deployment whose history begins with its creation, in any
  // interleaving with other events, the store holds the chain's state and
  // version: the same a full reconciliation would write.
  lemma HistoryRefinesChain(s: Store, tracked: set<string>, es: seq<Timed>, k: string)
    requires var h := Select(DeploymentHistory(tracked, es), WriteKey, k); h != [] && h[0].CreatedEvent?
    ensures var h := Select(DeploymentHistory(tracked, es), WriteKey, k);
            var r := Lookup(Handled(s, tracked, es).deployments, k);
            && r.Some?
            && r.value.state == (if ChainClosed(h) then "closed" else "active")
            && r.value.version == ChainVersion(h)
  {
    hide PutDeployment;
    HandledDeployments(s, tracked, es);
    HistoryIsEvents(tracked, es);
    var ws := DeploymentHistory(tracked, es);
    FoldAt(s.deployments, ws, WriteKey, PutDeployment, k);
    SelectMembers(ws, WriteKey, k);
    var h := Select(ws, WriteKey, k);
    forall i | 0 <= i < |h| ensures !h[i].Reported? { assert h[i] in ws; }
    EventsRefineChain(Lookup(s.deployments, k), h);
  }
}
