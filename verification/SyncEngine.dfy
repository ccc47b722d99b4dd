// The sync engine: full reconciliation and event handling over one store
// (internal/sync/reconcile.go, engine.go).
module SyncEngine {
  import opened Basics
  import opened SyncRecords
  import opened SyncFold
  import opened SyncFoldMarket
  import opened SyncPlans

  datatype SyncState = SyncState(height: int, time: int, tracked: seq<string>)

  class Engine {
    const tracked: set<string>
    const node: NodeScript
    // Whether the n-th access to the store, a read or a write, succeeds.
    const works: nat -> bool
    var store: Store
    var syncState: Option<SyncState>
    var queries: nat
    var accesses: nat

    constructor (tracked: set<string>, node: NodeScript, works: nat -> bool, store: Store)
      ensures this.tracked == tracked && this.node == node && this.works == works
      ensures this.store == store && syncState == None && queries == 0 && accesses == 0
    {
      this.tracked, this.node, this.works, this.store := tracked, node, works, store;
      syncState, queries, accesses := None, 0, 0;
    }

    method Ask(q: Query) returns (r: Result<Answer>)
      modifies this`queries
      ensures queries == old(queries) + 1 && r == node(old(queries), q)
    {
      r := node(queries, q);
      queries := queries + 1;
    }

    method Access() returns (ok: bool)
      modifies this`accesses
      ensures ok == works(old(accesses)) && accesses == old(accesses) + 1
    {
      ok := works(accesses);
      accesses := accesses + 1;
    }

    // Reads the record there is, merges the report into it and writes it back.
    method PutReported(w: Write) returns (ok: bool)
      modifies this`store, this`accesses
      ensures store == Apply(old(store), if ok then One(w) else NoWrites)
      ensures if ok then AllWorked(works, old(accesses), accesses) && accesses == old(accesses) + 2
              else StoppedAt(works, old(accesses), accesses) && old(accesses) < accesses <= old(accesses) + 2
    {
      ApplyOne(store);
      hide Apply;
      ok := Access();
      if !ok { return; }
      ok := Access();
      if !ok { return; }
      match w {
        case OfDeployment(d) => PutDeploymentRecord(d);
        case OfLease(l) => PutLeaseRecord(l);
        case OfBid(b) => PutBidRecord(b);
      }
    }

    // The records of one answer, in order.
    method PutAll(order: seq<Planned>) returns (ok: bool, ghost done: seq<Planned>)
      requires forall i :: 0 <= i < |order| ==> order[i].at == queries
      modifies this`store, this`accesses
      ensures store == Apply(old(store), Written(done))
      ensures Outcome(ok, done, Plan(order, queries, true), queries, works, old(accesses), accesses)
    {
      hide Apply;
      done := [];
      ApplyOne(store);
      for i := 0 to |order|
        invariant done == order[..i] && store == Apply(old(store), Written(done))
        invariant accesses == old(accesses) + 2 * i && AllWorked(works, old(accesses), accesses)
      {
        ghost var at := accesses;
        ok := PutReported(order[i].write);
        OutcomeGrows(done, order, queries, ok, works, old(accesses), at, accesses);
        if !ok {
          ApplyNothing(old(store), Written(done));
          return;
        }
        ApplyAppend(old(store), Written(done), One(order[i].write));
        WrittenOne(done, order[i]);
        done := done + [order[i]];
      }
      ok := true;
    }

    method ReconcileLeases(owner: string, dseq: nat, now: int) returns (ok: bool, ghost done: seq<Planned>)
      modifies this`store, this`accesses, this`queries
      ensures store == Apply(old(store), Written(done))
      ensures Outcome(ok, done, LeasePlan(node, old(queries), owner, dseq, now), queries, works, old(accesses),
              accesses)
    {
      hide Apply, Outcome;
      ApplyOne(store);
      var answer := Ask(LeasesOf(owner, dseq));
      OutcomeRefused(queries, works, accesses);
      if answer.Err? || !answer.value.Leases? { return false, []; }
      ok, done := PutAll(LeaseOrder(answer.value.leases, now, queries));
    }

    method ReconcileBids(owner: string, dseq: nat, now: int) returns (ok: bool, ghost done: seq<Planned>)
      modifies this`store, this`accesses, this`queries
      ensures store == Apply(old(store), Written(done))
      ensures Outcome(ok, done, BidPlan(node, old(queries), owner, dseq, now), queries, works, old(accesses), accesses)
    {
      hide Apply, Outcome;
      ApplyOne(store);
      var answer := Ask(BidsOf(owner, dseq));
      OutcomeRefused(queries, works, accesses);
      if answer.Err? || !answer.value.Bids? { return false, []; }
      ok, done := PutAll(BidOrder(answer.value.bids, now, queries));
    }

    // The leases, then the bids of one deployment.
    method ReconcileMarket(owner: string, dseq: nat, now: int) returns (ok: bool, ghost done: seq<Planned>)
      modifies this`store, this`accesses, this`queries
      ensures store == Apply(old(store), Written(done))
      ensures Outcome(ok, done, MarketPlan(node, old(queries), owner, dseq, now), queries, works, old(accesses),
              accesses)
    {
      hide Apply, LeasePlan, BidPlan, Outcome, Written;
      ghost var leases := LeasePlan(node, queries, owner, dseq, now);
      ghost var bids := BidPlan(node, leases.next, owner, dseq, now);
      ok, done := ReconcileLeases(owner, dseq, now);
      if !ok {
        OutcomeStops(done, leases, bids, queries, works, old(accesses), accesses);
        return;
      }
      ghost var more, q1, a1 := done, queries, accesses;
      OutcomeNext(done, leases, q1, works, old(accesses), a1);
      ok, more := ReconcileBids(owner, dseq, now);
      ApplyAppend(old(store), Written(done), Written(more));
      WrittenConcat(done, more);
      OutcomeThen(ok, done, more, leases, q1, bids, queries, works, old(accesses), a1, accesses);
      done := done + more;
    }

    // One reported deployment with its leases and bids. Stops at the first
    // failing query or access.
    method ReconcileDeployment(owner: string, d: DeploymentRecord, now: int) returns (ok: bool,
                               ghost done: seq<Planned>)
      modifies this`store, this`accesses, this`queries
      ensures store == Apply(old(store), Written(done))
      ensures Outcome(ok, done, DeploymentPlan(node, old(queries), owner, d, now), queries, works, old(accesses),
              accesses)
    {
      hide Apply, MarketPlan, Outcome, Written;
      ghost var record := RecordPlan(d, now, queries);
      ghost var market := MarketPlan(node, queries, owner, d.dseq, now);
      ok, done := PutAll([Planned(OfDeployment(Reported(d, now)), queries)]);
      if !ok {
        OutcomeStops(done, record, market, queries, works, old(accesses), accesses);
        return;
      }
      ghost var more, q1, a1 := done, queries, accesses;
      ok, more := ReconcileMarket(owner, d.dseq, now);
      ApplyAppend(old(store), Written(done), Written(more));
      WrittenConcat(done, more);
      OutcomeThen(ok, done, more, record, q1, market, queries, works, old(accesses), a1, accesses);
      done := done + more;
    }

    method ReconcileOwner(owner: string, now: int) returns (ok: bool, ghost done: seq<Planned>)
      modifies this`store, this`accesses, this`queries
      ensures store == Apply(old(store), Written(done))
      ensures Outcome(ok, done, OwnerPlan(node, old(queries), owner, now), queries, works, old(accesses), accesses)
    {
      ApplyOne(store);
      assert Written([]) == NoWrites;
      hide Apply, DeploymentPlan, Outcome, Written;
      done := [];
      var answer := Ask(DeploymentsOf(owner));
      OutcomeRefused(queries, works, accesses);
      if answer.Err? || !answer.value.Deployments? { return false, done; }
      var ds := answer.value.deployments;
      ghost var q0, a0 := queries, accesses;
      assert DeploymentsPlan(node, q0, owner, ds[..0], now) == Plan([], q0, true);
      for i := 0 to |ds|
        invariant store == Apply(old(store), Written(done))
        invariant Outcome(true, done, DeploymentsPlan(node, q0, owner, ds[..i], now), queries, works, a0, accesses)
      {
        ghost var one, q1, a1 := done, queries, accesses;
        ok, one := ReconcileDeployment(owner, ds[i], now);
        ApplyAppend(old(store), Written(done), Written(one));
        WrittenConcat(done, one);
        DeploymentsPlanned(node, q0, owner, ds, i, now, ok, done, one, q1, queries, works, a0, a1, accesses);
        done := done + one;
        if !ok { return; }
      }
      assert ds[..|ds|] == ds;
      ok := true;
    }

    method SortedOwners() returns (owners: seq<string>)
      ensures owners == SortedKeys(tracked) && forall i :: 0 <= i < |owners| ==> owners[i] in tracked
    {
      var list: seq<string> := [];
      var todo := tracked;
      while todo != {}
        invariant todo <= tracked && multiset(list) == multiset(tracked - todo)
        decreases |todo|
      {
        var owner :| owner in todo;
        assert tracked - (todo - {owner}) == (tracked - todo) + {owner};
        todo := todo - {owner};
        list := list + [owner];
      }
      assert tracked - {} == tracked;
      SortOfKeys(list, tracked);
      owners := Sort(list);
      forall i | 0 <= i < |owners| ensures owners[i] in tracked { assert owners[i] in multiset(owners); }
    }

    // Every owner in order.
    method FullReconcile(now: int) returns (ok: bool, ghost done: seq<Planned>)
      modifies this`store, this`accesses, this`queries
      ensures store == Apply(old(store), Written(done))
      ensures Outcome(ok, done, FullPlan(node, old(queries), SortedKeys(tracked), now), queries, works, old(accesses),
              accesses)
    {
      ApplyOne(store);
      assert Written([]) == NoWrites;
      hide Apply, OwnerPlan, Outcome, Written;
      done := [];
      var owners := SortedOwners();
      ghost var q0 := queries;
      OutcomeRefused(queries, works, accesses);
      assert FullPlan(node, q0, owners[..0], now) == Plan([], q0, true);
      for i := 0 to |owners|
        invariant store == Apply(old(store), Written(done))
        invariant Outcome(true, done, FullPlan(node, q0, owners[..i], now), queries, works, old(accesses), accesses)
      {
        ghost var one, q1, a1 := done, queries, accesses;
        ok, one := ReconcileOwner(owners[i], now);
        ApplyAppend(old(store), Written(done), Written(one));
        WrittenConcat(done, one);
        OwnersPlanned(node, q0, owners, i, now, ok, done, one, q1, queries, works, old(accesses), a1, accesses);
        done := done + one;
        if !ok { return; }
      }
      assert owners[..|owners|] == owners;
      ok := true;
    }

    // ReconcileNow: the height is the first thing read, and it is recorded
    // only once every query was answered and every write of the run is done.
    method ReconcileNow(now: int) returns (ok: bool, ghost done: seq<Planned>)
      modifies this`store, this`accesses, this`queries, this`syncState
      ensures store == Apply(old(store), Written(done)) && Reconciled(node, tracked, old(queries) + 1, now, done)
      ensures var answer := node(old(queries), Height);
              var plan := FullPlan(node, old(queries) + 1, SortedKeys(tracked), now);
              if answer.Err? || !answer.value.HeightIs? then
                !ok && done == [] && queries == old(queries) + 1 && accesses == old(accesses)
                  && syncState == old(syncState)
              else if ok then
                && accesses > 0 && Outcome(true, done, plan, queries, works, old(accesses), accesses - 1)
                && works(accesses - 1)
                && syncState == Some(SyncState(answer.value.height, now, SortedKeys(tracked)))
              else
                && syncState == old(syncState)
                && (|| Outcome(false, done, plan, queries, works, old(accesses), accesses)
                    || (accesses > 0 && Outcome(true, done, plan, queries, works, old(accesses), accesses - 1)
                        && !works(accesses - 1)))
      ensures forall heightAt: nat -> int :: ok && HeightsRise(node, heightAt) ==>
                forall m :: old(queries) <= m < queries ==> syncState.value.height <= heightAt(m)
      ensures forall chain :: Steady(node, works, chain) ==>
                ok && Written(done) == Everything(chain, SortedKeys(tracked), now)
    {
      SteadyNow(node, works, queries, SortedKeys(tracked), now);
      HeightsAbove(node, queries);
      ApplyOne(store);
      hide Apply, FullPlan, Steady, HeightsRise, Everything, SortedKeys, Written;
      done := [];
      assert Written([]) == NoWrites by { WrittenNothing(); }
      var answer := Ask(Height);
      if answer.Err? || !answer.value.HeightIs? { return false, done; }
      ghost var plan := FullPlan(node, queries, SortedKeys(tracked), now);
      ok, done := FullReconcile(now);
      OutcomePrefix(ok, done, plan, queries, works, old(accesses), accesses);
      if !ok { return; }
      ok := Access();
      if !ok { return; }
      var owners := SortedOwners();
      syncState := Some(SyncState(answer.value.height, now, owners));
    }

    // A record's read, when the event needs one, and its write.
    method ReadAndWrite(readsFirst: bool) returns (ok: bool)
      modifies this`accesses
      ensures accesses >= old(accesses)
      ensures if ok then AllWorked(works, old(accesses), accesses) else StoppedAt(works, old(accesses), accesses)
      ensures ok ==> accesses == old(accesses) + if readsFirst then 2 else 1
    {
      ok := true;
      if readsFirst { ok := Access(); }
      if ok { ok := Access(); }
    }

    method HandleLeaseCreated(id: Id, price: string, now: int) returns (ok: bool)
      requires id.owner in tracked
      modifies this`store, this`accesses
      ensures if ok then AllWorked(works, old(accesses), accesses) else StoppedAt(works, old(accesses), accesses)
      ensures ok ==> store == Apply(old(store), EventWrites(tracked, old(store).bids.Keys, LeaseCreatedEvent(id,
              price), now))
      ensures ok ==> accesses == old(accesses) + if RecordKey(id) in old(store).bids then 3 else 2
      ensures !ok ==> store == old(store) || store == Apply(old(store), Batch([], [LeaseCreated(id, price, now)], []))
    {
      hide Apply, RecordKey;
      ok := ReadAndWrite(false);
      if !ok { return; }
      PutLeaseRecord(LeaseCreated(id, price, now));
      ok := Access();
      if !ok { return; }
      if RecordKey(id) in store.bids {
        ok := Access();
        if !ok { return; }
        PutBidRecord(BidMatched(id));
        LeaseThenBid(old(store), LeaseCreated(id, price, now), BidMatched(id));
      }
    }

    // HandleEvent. A failing access leaves the store at what was written before.
    method HandleEvent(e: Event, now: int) returns (ok: bool)
      modifies this`store, this`accesses
      ensures EventOwner(e).None? || EventOwner(e).value !in tracked ==>
                ok && store == old(store) && accesses == old(accesses)
      ensures if ok then AllWorked(works, old(accesses), accesses) else StoppedAt(works, old(accesses), accesses)
      ensures ok ==> store == Apply(old(store), EventWrites(tracked, old(store).bids.Keys, e, now))
      ensures ok && EventOwner(e).Some? && EventOwner(e).value in tracked ==>
                accesses == old(accesses) + if e.DeploymentCreatedEvent? || e.BidCreatedEvent? then 1
                                            else if e.LeaseCreatedEvent? && RecordKey(e.id) in old(store).bids then 3
                                            else 2
      ensures !ok ==> || store == old(store)
                      || (e.LeaseCreatedEvent?
                         && store == Apply(old(store), Batch([], [LeaseCreated(e.id, e.price, now)], [])))
      ensures Handles(old(store), store, tracked, e, now)
    {
      ApplyOne(store);
      hide Apply;
      if EventOwner(e).None? || EventOwner(e).value !in tracked { return true; }
      if e.LeaseCreatedEvent? {
        ok := HandleLeaseCreated(e.id, e.price, now);
        return;
      }
      ok := ReadAndWrite(!e.DeploymentCreatedEvent? && !e.BidCreatedEvent?);
      if !ok { return; }
      match e {
        case DeploymentCreatedEvent(owner, dseq, hash) => PutDeploymentRecord(CreatedEvent(owner, dseq, hash, now));
        case DeploymentUpdatedEvent(owner, dseq, hash) => PutDeploymentRecord(UpdatedEvent(owner, dseq, hash, now));
        case DeploymentClosedEvent(owner, dseq) => PutDeploymentRecord(ClosedEvent(owner, dseq, now));
        case BidCreatedEvent(id, price) => PutBidRecord(BidCreated(id, price, now));
        case BidClosedEvent(id) => PutBidRecord(BidClosed(id));
        case LeaseClosedEvent(id) => PutLeaseRecord(LeaseClosed(id, now));
      }
    }

    method PutDeploymentRecord(w: DeploymentWrite)
      modifies this`store
      ensures store == Apply(old(store), Batch([w], [], []))
    {
      ApplyOne(store);
      store := store.(deployments := store.deployments[WriteKey(w) := PutDeployment(Lookup(store.deployments,
        WriteKey(w)), w)]);
    }

    method PutLeaseRecord(w: LeaseWrite)
      modifies this`store
      ensures store == Apply(old(store), Batch([], [w], [])) && store.bids == old(store).bids
    {
      ApplyOne(store);
      store := store.(leases := store.leases[LeaseKey(w) := PutLease(Lookup(store.leases, LeaseKey(w)), w)]);
    }

    method PutBidRecord(w: BidWrite)
      modifies this`store
      ensures store == Apply(old(store), Batch([], [], [w]))
    {
      ApplyOne(store);
      store := store.(bids := store.bids[BidKey(w) := PutBid(Lookup(store.bids, BidKey(w)), w)]);
    }
  }

  lemma ApplyNothing(s: Store, b: Batch)
    ensures Apply(Apply(s, b), NoWrites) == Apply(s, b)
  {
    ApplyOne(Apply(s, b));
  }

  lemma WrittenNothing()
    ensures Written([]) == NoWrites
  {
  }

  lemma LeaseThenBid(s: Store, l: LeaseWrite, w: BidWrite)
    ensures Apply(Apply(s, Batch([], [l], [])), Batch([], [], [w])) == Apply(s, Batch([], [l], [w]))
  {
    ApplyAppend(s, Batch([], [l], []), Batch([], [], [w]));
    assert Append(Batch([], [l], []), Batch([], [], [w])) == Batch([], [l], [w]);
  }

  // What an event may leave: all it asks for, nothing, or a new lease whose bid
  // was not marked.
  ghost predicate Handles(before: Store, after: Store, tracked: set<string>, e: Event, now: int) {
    var asked := EventWrites(tracked, before.bids.Keys, e, now);
    || after == Apply(before, asked)
    || after == before
    || (e.LeaseCreatedEvent? && e.id.owner in tracked
       && after == Apply(before, Batch([], [LeaseCreated(e.id, e.price, now)], [])))
  }

  // ------------------------------------------------------------- chain events

  datatype Event =
    | DeploymentCreatedEvent(owner: string, dseq: nat, hash: string)
    | DeploymentUpdatedEvent(owner: string, dseq: nat, hash: string)
    | DeploymentClosedEvent(owner: string, dseq: nat)
    | BidCreatedEvent(id: Id, price: string)
    | BidClosedEvent(id: Id)
    | LeaseCreatedEvent(id: Id, price: string)
    | LeaseClosedEvent(id: Id)
    | OtherEvent

  function EventOwner(e: Event): Option<string> {
    match e
    case DeploymentCreatedEvent(owner, _, _) => Some(owner)
    case DeploymentUpdatedEvent(owner, _, _) => Some(owner)
    case DeploymentClosedEvent(owner, _) => Some(owner)
    case BidCreatedEvent(id, _) => Some(id.owner)
    case BidClosedEvent(id) => Some(id.owner)
    case LeaseCreatedEvent(id, _) => Some(id.owner)
    case LeaseClosedEvent(id) => Some(id.owner)
    case OtherEvent => None
  }

  // The writes an event asks for; a new lease also marks its bid, if known.
  function EventWrites(tracked: set<string>, bids: set<string>, e: Event, now: int): Batch {
    if EventOwner(e).None? || EventOwner(e).value !in tracked then NoWrites
    else
      match e
      case DeploymentCreatedEvent(owner, dseq, hash) => Batch([CreatedEvent(owner, dseq, hash, now)], [], [])
      case DeploymentUpdatedEvent(owner, dseq, hash) => Batch([UpdatedEvent(owner, dseq, hash, now)], [], [])
      case DeploymentClosedEvent(owner, dseq) => Batch([ClosedEvent(owner, dseq, now)], [], [])
      case BidCreatedEvent(id, price) => Batch([], [], [BidCreated(id, price, now)])
      case BidClosedEvent(id) => Batch([], [], [BidClosed(id)])
      case LeaseCreatedEvent(id, price) =>
        Batch([], [LeaseCreated(id, price, now)], if RecordKey(id) in bids then [BidMatched(id)] else [])
      case LeaseClosedEvent(id) => Batch([], [LeaseClosed(id, now)], [])
      case OtherEvent => NoWrites
  }
}
