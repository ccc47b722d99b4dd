// What chain events leave in one record of the store, whatever other events
// come between and whatever accesses fail: the last event that took effect
// decides the record.
module SyncEventLaws {
  import opened Basics
  import opened SyncRecords
  import opened SyncFold
  import opened SyncFoldMarket
  import opened SyncPlans
  import opened SyncEngine
  import opened SyncLaws

  // ------------------------------------------------------------------- leases

  predicate NamesLease(e: Event, k: string) {
    (e.LeaseCreatedEvent? || e.LeaseClosedEvent?) && RecordKey(e.id) == k
  }

  ghost predicate SameLeaseTerms(a: LeaseRecord, b: LeaseRecord) {
    a.id == b.id && a.price == b.price && a.providerUri == b.providerUri && a.endpoints == b.endpoints
    && a.createdAt == b.createdAt
  }

  // A creation starts the lease afresh; a closing keeps its terms.
  ghost predicate LeaseEffect(was: Option<LeaseRecord>, left: Option<LeaseRecord>, e: Event, now: int) {
    && left.Some?
    && (e.LeaseCreatedEvent? ==>
          && left.value.id == e.id && left.value.state == "active" && left.value.price == e.price
          && left.value.providerUri == "" && left.value.endpoints == []
          && left.value.createdAt == now && left.value.closedAt == 0)
    && (e.LeaseClosedEvent? ==>
          && left.value.state == "closed" && left.value.closedAt == now
          && (if was.Some? then SameLeaseTerms(was.value, left.value)
              else SameLeaseTerms(LeaseRecord(e.id, "", "", "", [], 0, 0, 0), left.value)))
    && left.value.recordVersion == (if was.Some? then was.value.recordVersion + 1 else 1)
  }

  lemma LeaseWritten(s: Store, e: Event, now: int, w: LeaseWrite, bids: seq<BidWrite>)
    requires || (e.LeaseCreatedEvent? && w == LeaseCreated(e.id, e.price, now))
             || (e.LeaseClosedEvent? && w == LeaseClosed(e.id, now))
    ensures var after := Apply(s, Batch([], [w], bids));
            && LeaseEffect(Lookup(s.leases, RecordKey(e.id)), Lookup(after.leases, RecordKey(e.id)), e, now)
            && forall k :: k != RecordKey(e.id) ==> Lookup(after.leases, k) == Lookup(s.leases, k)
  {
    hide RecordKey, Fold;
    FoldOne(s.leases, w, LeaseKey, PutLease);
  }

  // A tracked lease event that goes through has its effect.
  lemma LeaseTakes(s: Store, tracked: set<string>, e: Event, now: int)
    requires (e.LeaseCreatedEvent? || e.LeaseClosedEvent?) && e.id.owner in tracked
    ensures var after := Apply(s, EventWrites(tracked, s.bids.Keys, e, now));
            LeaseEffect(Lookup(s.leases, RecordKey(e.id)), Lookup(after.leases, RecordKey(e.id)), e, now)
  {
    hide Apply, LeaseEffect, RecordKey;
    var b := EventWrites(tracked, s.bids.Keys, e, now);
    LeaseWritten(s, e, now, b.leases[0], b.bids);
    assert b == Batch([], [b.leases[0]], b.bids);
  }

  // An event leaves a lease alone or has its effect on it.
  lemma LeaseStep(before: Store, after: Store, tracked: set<string>, e: Event, now: int, k: string)
    requires Handles(before, after, tracked, e, now)
    ensures || Lookup(after.leases, k) == Lookup(before.leases, k)
            || (NamesLease(e, k) && LeaseEffect(Lookup(before.leases, k), Lookup(after.leases, k), e, now))
  {
    hide Apply, LeaseEffect, RecordKey, Lookup;
    var b := EventWrites(tracked, before.bids.Keys, e, now);
    if after != before {
      if after == Apply(before, b) && b.leases == [] {
        LeasesUntouched(before, b);
      } else if after == Apply(before, b) {
        LeaseWritten(before, e, now, b.leases[0], b.bids);
        assert b == Batch([], [b.leases[0]], b.bids);
      } else {
        LeaseWritten(before, e, now, LeaseCreated(e.id, e.price, now), []);
      }
    }
  }

  lemma LeasesUntouched(s: Store, b: Batch)
    requires b.leases == []
    ensures Apply(s, b).leases == s.leases
  {
  }

  // The last lease event that took effect decides: "closed" at its time after a
  // closing, "active" at the announced price after a creation.
  lemma {:induction false} LastLeaseEventDecides(stores: seq<Store>, tracked: set<string>, es: seq<Timed>, i: nat,
                                                 k: string)
    requires EventRun(stores, tracked, es) && i < |es|
    requires NamesLease(es[i].event, k) && es[i].event.id.owner in tracked
    requires stores[i + 1].leases
          == Apply(stores[i], EventWrites(tracked, stores[i].bids.Keys, es[i].event, es[i].now)).leases
    requires forall j :: i < j < |es| && NamesLease(es[j].event, k) ==>
               Lookup(stores[j + 1].leases, k) == Lookup(stores[j].leases, k)
    ensures LeaseEffect(Lookup(stores[i].leases, k), Lookup(stores[|es|].leases, k), es[i].event, es[i].now)
    decreases |es|
  {
    hide Apply, EventWrites, Handles, LeaseEffect, Lookup;
    var n := |es| - 1;
    if i == n {
      LeaseTakes(stores[i], tracked, es[i].event, es[i].now);
    } else {
      LastLeaseEventDecides(stores[..n + 1], tracked, es[..n], i, k);
      LeaseStep(stores[n], stores[n + 1], tracked, es[n].event, es[n].now, k);
    }
  }

  // Without a creation a lease keeps its terms, and a closed one stays closed.
  lemma {:induction false} LeaseStands(stores: seq<Store>, tracked: set<string>, es: seq<Timed>, k: string)
    requires EventRun(stores, tracked, es) && Lookup(stores[0].leases, k).Some?
    requires forall j :: 0 <= j < |es| && es[j].event.LeaseCreatedEvent? ==> RecordKey(es[j].event.id) != k
    ensures var was, left := Lookup(stores[0].leases, k), Lookup(stores[|es|].leases, k);
            && left.Some? && SameLeaseTerms(was.value, left.value)
            && (was.value.state == "closed" ==> left.value.state == "closed")
    decreases |es|
  {
    hide Apply, EventWrites, Handles, Lookup, RecordKey;
    if es != [] {
      var n := |es| - 1;
      LeaseStands(stores[..n + 1], tracked, es[..n], k);
      LeaseStep(stores[n], stores[n + 1], tracked, es[n].event, es[n].now, k);
    }
  }

  // --------------------------------------------------------------------- bids

  predicate NamesBid(e: Event, k: string) {
    (e.BidCreatedEvent? || e.BidClosedEvent? || e.LeaseCreatedEvent?) && RecordKey(e.id) == k
  }

  ghost predicate SameBidTerms(a: BidRecord, b: BidRecord) {
    a.id == b.id && a.price == b.price && a.attributes == b.attributes && a.audited == b.audited
    && a.createdAt == b.createdAt
  }

  // A creation starts the bid afresh; a closing and a match keep its terms, and
  // only a known bid is matched.
  ghost predicate BidEffect(was: Option<BidRecord>, left: Option<BidRecord>, e: Event, now: int) {
    && left.Some?
    && (e.BidCreatedEvent? ==>
          && left.value.id == e.id && left.value.state == "open" && left.value.price == e.price
          && left.value.attributes.None? && !left.value.audited && left.value.createdAt == now)
    && (e.BidClosedEvent? ==>
          && left.value.state == "closed"
          && (if was.Some? then SameBidTerms(was.value, left.value)
              else SameBidTerms(BidRecord(e.id, "", "", None, false, 0, 0), left.value)))
    && (e.LeaseCreatedEvent? ==>
          was.Some? && left.value.state == "matched" && SameBidTerms(was.value, left.value))
    && left.value.recordVersion == (if was.Some? then was.value.recordVersion + 1 else 1)
  }

  lemma BidWritten(s: Store, e: Event, now: int, w: BidWrite, leases: seq<LeaseWrite>)
    requires || (e.BidCreatedEvent? && w == BidCreated(e.id, e.price, now))
             || (e.BidClosedEvent? && w == BidClosed(e.id))
             || (e.LeaseCreatedEvent? && w == BidMatched(e.id) && RecordKey(e.id) in s.bids)
    ensures var after := Apply(s, Batch([], leases, [w]));
            && BidEffect(Lookup(s.bids, RecordKey(e.id)), Lookup(after.bids, RecordKey(e.id)), e, now)
            && forall k :: k != RecordKey(e.id) ==> Lookup(after.bids, k) == Lookup(s.bids, k)
  {
    hide RecordKey, Fold;
    FoldOne(s.bids, w, BidKey, PutBid);
  }

  lemma BidTakes(s: Store, tracked: set<string>, e: Event, now: int)
    requires e.BidCreatedEvent? || e.BidClosedEvent? || (e.LeaseCreatedEvent? && RecordKey(e.id) in s.bids)
    requires e.id.owner in tracked
    ensures var after := Apply(s, EventWrites(tracked, s.bids.Keys, e, now));
            BidEffect(Lookup(s.bids, RecordKey(e.id)), Lookup(after.bids, RecordKey(e.id)), e, now)
  {
    hide Apply, BidEffect, RecordKey;
    var b := EventWrites(tracked, s.bids.Keys, e, now);
    BidWritten(s, e, now, b.bids[0], b.leases);
    assert b == Batch([], b.leases, [b.bids[0]]);
  }

  lemma BidStep(before: Store, after: Store, tracked: set<string>, e: Event, now: int, k: string)
    requires Handles(before, after, tracked, e, now)
    ensures || Lookup(after.bids, k) == Lookup(before.bids, k)
            || (NamesBid(e, k) && BidEffect(Lookup(before.bids, k), Lookup(after.bids, k), e, now))
  {
    hide Apply, BidEffect, RecordKey, Lookup;
    var b := EventWrites(tracked, before.bids.Keys, e, now);
    if after != before {
      if after == Apply(before, b) && b.bids == [] {
        BidsUntouched(before, b);
      } else if after == Apply(before, b) {
        BidWritten(before, e, now, b.bids[0], b.leases);
        assert b == Batch([], b.leases, [b.bids[0]]);
      } else {
        BidsUntouched(before, Batch([], [LeaseCreated(e.id, e.price, now)], []));
      }
    }
  }

  lemma BidsUntouched(s: Store, b: Batch)
    requires b.bids == []
    ensures Apply(s, b).bids == s.bids
  {
  }

  // The last bid event that took effect decides: "open" at the announced price,
  // "closed", or "matched" by a lease.
  lemma {:induction false} LastBidEventDecides(stores: seq<Store>, tracked: set<string>, es: seq<Timed>, i: nat,
                                               k: string)
    requires EventRun(stores, tracked, es) && i < |es|
    requires NamesBid(es[i].event, k) && es[i].event.id.owner in tracked
    requires es[i].event.LeaseCreatedEvent? ==> k in stores[i].bids
    requires stores[i + 1].bids
          == Apply(stores[i], EventWrites(tracked, stores[i].bids.Keys, es[i].event, es[i].now)).bids
    requires forall j :: i < j < |es| && NamesBid(es[j].event, k) ==>
               Lookup(stores[j + 1].bids, k) == Lookup(stores[j].bids, k)
    ensures BidEffect(Lookup(stores[i].bids, k), Lookup(stores[|es|].bids, k), es[i].event, es[i].now)
    decreases |es|
  {
    hide Apply, EventWrites, Handles, BidEffect, Lookup;
    var n := |es| - 1;
    if i == n {
      BidTakes(stores[i], tracked, es[i].event, es[i].now);
    } else {
      LastBidEventDecides(stores[..n + 1], tracked, es[..n], i, k);
      BidStep(stores[n], stores[n + 1], tracked, es[n].event, es[n].now, k);
    }
  }

  // Without a creation a bid keeps its terms.
  lemma {:induction false} BidStands(stores: seq<Store>, tracked: set<string>, es: seq<Timed>, k: string)
    requires EventRun(stores, tracked, es) && Lookup(stores[0].bids, k).Some?
    requires forall j :: 0 <= j < |es| && es[j].event.BidCreatedEvent? ==> RecordKey(es[j].event.id) != k
    ensures var was, left := Lookup(stores[0].bids, k), Lookup(stores[|es|].bids, k);
            left.Some? && SameBidTerms(was.value, left.value)
    decreases |es|
  {
    hide Apply, EventWrites, Handles, Lookup, RecordKey;
    if es != [] {
      var n := |es| - 1;
      BidStands(stores[..n + 1], tracked, es[..n], k);
      BidStep(stores[n], stores[n + 1], tracked, es[n].event, es[n].now, k);
    }
  }

  // -------------------------------------------------------------- deployments

  predicate NamesDeployment(e: Event, k: string) {
    (e.DeploymentCreatedEvent? || e.DeploymentUpdatedEvent? || e.DeploymentClosedEvent?)
    && DeploymentKey(e.owner, e.dseq) == k
  }

  ghost predicate SameDeploymentTerms(a: DeploymentRecord, b: DeploymentRecord) {
    && a.owner == b.owner && a.dseq == b.dseq && a.local == b.local && a.createdAt == b.createdAt
    && a.escrowBalance == b.escrowBalance && a.transferred == b.transferred && a.createdHeight == b.createdHeight
  }

  // A deployment of which only the name and the creation time are known.
  function Unknown(owner: string, dseq: nat, createdAt: int): DeploymentRecord {
    DeploymentRecord(owner, dseq, "", "", "", "", 0, LocalDeployment("", "", "", map[], "", []), createdAt, 0, 0, 0)
  }

  // A creation starts the deployment afresh, an update announces a version, a
  // closing closes; the last two keep everything else, local data included.
  ghost predicate DeploymentEffect(was: Option<DeploymentRecord>, left: Option<DeploymentRecord>, e: Event, now: int) {
    && left.Some? && left.value.updatedAt == now
    && (e.DeploymentCreatedEvent? ==>
          && SameDeploymentTerms(Unknown(e.owner, e.dseq, now), left.value)
          && left.value.state == "active" && left.value.version == e.hash
          && left.value.closedAt == 0)
    && (e.DeploymentUpdatedEvent? ==>
          && left.value.version == e.hash
          && (if was.Some? then
                && SameDeploymentTerms(was.value, left.value)
                && left.value.state == was.value.state && left.value.closedAt == was.value.closedAt
              else
                && SameDeploymentTerms(Unknown(e.owner, e.dseq, now), left.value)
                && left.value.state == "active" && left.value.closedAt == 0))
    && (e.DeploymentClosedEvent? ==>
          && left.value.state == "closed" && left.value.closedAt == now
          && (if was.Some? then SameDeploymentTerms(was.value, left.value) && left.value.version == was.value.version
              else SameDeploymentTerms(Unknown(e.owner, e.dseq, 0), left.value) && left.value.version == ""))
    && left.value.recordVersion == (if was.Some? then was.value.recordVersion + 1 else 1)
  }

  predicate IsWriteOf(w: DeploymentWrite, e: Event, now: int) {
    || (e.DeploymentCreatedEvent? && w == CreatedEvent(e.owner, e.dseq, e.hash, now))
    || (e.DeploymentUpdatedEvent? && w == UpdatedEvent(e.owner, e.dseq, e.hash, now))
    || (e.DeploymentClosedEvent? && w == ClosedEvent(e.owner, e.dseq, now))
  }

  lemma DeploymentWritten(s: Store, e: Event, now: int, w: DeploymentWrite)
    requires IsWriteOf(w, e, now)
    ensures var after, key := Apply(s, Batch([w], [], [])), DeploymentKey(e.owner, e.dseq);
            && DeploymentEffect(Lookup(s.deployments, key), Lookup(after.deployments, key), e, now)
            && forall k :: k != key ==> Lookup(after.deployments, k) == Lookup(s.deployments, k)
  {
    hide DeploymentKey, Fold;
    FoldOne(s.deployments, w, WriteKey, PutDeployment);
  }

  lemma DeploymentStep(before: Store, after: Store, tracked: set<string>, e: Event, now: int, k: string)
    requires Handles(before, after, tracked, e, now)
    ensures || Lookup(after.deployments, k) == Lookup(before.deployments, k)
            || (&& NamesDeployment(e, k)
                && DeploymentEffect(Lookup(before.deployments, k), Lookup(after.deployments, k), e, now))
  {
    hide Apply, DeploymentEffect, RecordKey, Lookup, DeploymentKey;
    var b := EventWrites(tracked, before.bids.Keys, e, now);
    if after != before {
      if after == Apply(before, b) && b.deployments == [] {
        DeploymentsUntouched(before, b);
      } else if after == Apply(before, b) {
        DeploymentWritten(before, e, now, b.deployments[0]);
        assert b == Batch([b.deployments[0]], [], []);
      } else {
        DeploymentsUntouched(before, Batch([], [LeaseCreated(e.id, e.price, now)], []));
      }
    }
  }

  lemma DeploymentsUntouched(s: Store, b: Batch)
    requires b.deployments == []
    ensures Apply(s, b).deployments == s.deployments
  {
  }

  lemma DeploymentTakes(s: Store, tracked: set<string>, e: Event, now: int)
    requires e.DeploymentCreatedEvent? || e.DeploymentUpdatedEvent? || e.DeploymentClosedEvent?
    requires e.owner in tracked
    ensures var after, key := Apply(s, EventWrites(tracked, s.bids.Keys, e, now)), DeploymentKey(e.owner, e.dseq);
            DeploymentEffect(Lookup(s.deployments, key), Lookup(after.deployments, key), e, now)
  {
    hide Apply, DeploymentEffect, DeploymentKey;
    var b := EventWrites(tracked, s.bids.Keys, e, now);
    DeploymentWritten(s, e, now, b.deployments[0]);
    assert b == Batch([b.deployments[0]], [], []);
  }

  // The last event of a deployment that took effect decides its state, its
  // version and its times.
  lemma {:induction false} LastDeploymentEventDecides(stores: seq<Store>, tracked: set<string>, es: seq<Timed>, i: nat,
                                                      k: string)
    requires EventRun(stores, tracked, es) && i < |es|
    requires NamesDeployment(es[i].event, k) && es[i].event.owner in tracked
    requires stores[i + 1].deployments
          == Apply(stores[i], EventWrites(tracked, stores[i].bids.Keys, es[i].event, es[i].now)).deployments
    requires forall j :: i < j < |es| && NamesDeployment(es[j].event, k) ==>
               Lookup(stores[j + 1].deployments, k) == Lookup(stores[j].deployments, k)
    ensures DeploymentEffect(Lookup(stores[i].deployments, k), Lookup(stores[|es|].deployments, k), es[i].event,
                             es[i].now)
    decreases |es|
  {
    hide Apply, EventWrites, Handles, DeploymentEffect, Lookup;
    var n := |es| - 1;
    if i == n {
      DeploymentTakes(stores[i], tracked, es[i].event, es[i].now);
    } else {
      LastDeploymentEventDecides(stores[..n + 1], tracked, es[..n], i, k);
      DeploymentStep(stores[n], stores[n + 1], tracked, es[n].event, es[n].now, k);
    }
  }
}
