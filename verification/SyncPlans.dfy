// What a reconciliation is to write, given the chain node's answers, and how
// far a run of it gets (internal/sync/reconcile.go).
module SyncPlans {
  import opened Basics
  import opened SyncRecords
  import opened SyncFold
  import opened SyncFoldMarket

  // -------------------------------------------------------------- chain queries

  datatype Query = Height | DeploymentsOf(owner: string) | LeasesOf(owner: string, dseq: nat) | BidsOf(owner: string,
                                          dseq: nat)

  datatype Answer =
    | HeightIs(height: int)
    | Deployments(deployments: seq<DeploymentRecord>)
    | Leases(leases: seq<LeaseRecord>)
    | Bids(bids: seq<BidRecord>)

  // What the node answers to the n-th query, or a failure.
  type NodeScript = (nat, Query) -> Result<Answer>

  // A chain that does not change while it is read.
  datatype Chain = Chain(
    height: int,
    deployments: string -> seq<DeploymentRecord>,
    leases: (string, nat) -> seq<LeaseRecord>,
    bids: (string, nat) -> seq<BidRecord>)

  ghost function Truth(chain: Chain, q: Query): Answer {
    match q
    case Height => HeightIs(chain.height)
    case DeploymentsOf(owner) => Deployments(chain.deployments(owner))
    case LeasesOf(owner, dseq) => Leases(chain.leases(owner, dseq))
    case BidsOf(owner, dseq) => Bids(chain.bids(owner, dseq))
  }

  // Every query is answered, and every access to the store succeeds.
  ghost predicate Steady(node: NodeScript, works: nat -> bool, chain: Chain) {
    && (forall n: nat, q :: node(n, q) == Ok(Truth(chain, q)))
    && (forall n: nat :: works(n))
  }

  // Accesses to the store between two moments all succeeded, or the last one
  // failed and ended the run.
  ghost predicate AllWorked(works: nat -> bool, from: nat, to: nat) {
    forall i :: from <= i < to ==> works(i)
  }

  ghost predicate StoppedAt(works: nat -> bool, from: nat, to: nat) {
    from < to && !works(to - 1) && AllWorked(works, from, to - 1)
  }

  // ------------------------------------------------- what a reconciliation writes

  function LeaseReports(ls: seq<LeaseRecord>, now: int): seq<LeaseWrite> {
    seq(|ls|, i requires 0 <= i < |ls| => LeaseReported(ls[i], now))
  }

  function BidReports(bs: seq<BidRecord>, now: int): seq<BidWrite> {
    seq(|bs|, i requires 0 <= i < |bs| => BidReported(bs[i], now))
  }

  // Everything one run writes, bucket by bucket.
  datatype Batch = Batch(deployments: seq<DeploymentWrite>, leases: seq<LeaseWrite>, bids: seq<BidWrite>)

  const NoWrites: Batch := Batch([], [], [])

  function Append(a: Batch, b: Batch): Batch {
    Batch(a.deployments + b.deployments, a.leases + b.leases, a.bids + b.bids)
  }

  ghost function OneDeployment(chain: Chain, owner: string, d: DeploymentRecord, now: int): Batch {
    Batch([Reported(d, now)], LeaseReports(chain.leases(owner, d.dseq), now), BidReports(chain.bids(owner, d.dseq),
      now))
  }

  ghost function OneOwner(chain: Chain, owner: string, ds: seq<DeploymentRecord>, now: int): Batch {
    if ds == [] then NoWrites
    else Append(OneOwner(chain, owner, ds[..|ds| - 1], now), OneDeployment(chain, owner, ds[|ds| - 1], now))
  }

  ghost function Everything(chain: Chain, owners: seq<string>, now: int): Batch {
    if owners == [] then NoWrites
    else
      var owner := owners[|owners| - 1];
      Append(Everything(chain, owners[..|owners| - 1], now), OneOwner(chain, owner, chain.deployments(owner), now))
  }

  // The three buckets together.
  datatype Store = Store(deployments: map<string, DeploymentRecord>, leases: map<string, LeaseRecord>,
                         bids: map<string, BidRecord>)

  ghost function Apply(s: Store, b: Batch): Store {
    Store(Fold(s.deployments, b.deployments, WriteKey, PutDeployment),
          Fold(s.leases, b.leases, LeaseKey, PutLease),
          Fold(s.bids, b.bids, BidKey, PutBid))
  }

  lemma ApplyAppend(s: Store, a: Batch, b: Batch)
    ensures Apply(s, Append(a, b)) == Apply(Apply(s, a), b)
  {
    FoldConcat(s.deployments, a.deployments, b.deployments, WriteKey, PutDeployment);
    FoldConcat(s.leases, a.leases, b.leases, LeaseKey, PutLease);
    FoldConcat(s.bids, a.bids, b.bids, BidKey, PutBid);
  }

  lemma ApplyOne(s: Store)
    ensures Apply(s, NoWrites) == s
    ensures forall w :: Apply(s, Batch([w], [], [])) ==
              s.(deployments := s.deployments[WriteKey(w) := PutDeployment(Lookup(s.deployments, WriteKey(w)), w)])
    ensures forall w :: Apply(s, Batch([], [w], [])) ==
              s.(leases := s.leases[LeaseKey(w) := PutLease(Lookup(s.leases, LeaseKey(w)), w)])
    ensures forall w :: Apply(s, Batch([], [], [w])) ==
              s.(bids := s.bids[BidKey(w) := PutBid(Lookup(s.bids, BidKey(w)), w)])
  {
    hide PutDeployment, PutLease, PutBid, WriteKey, LeaseKey, BidKey;
    forall w ensures Fold(s.deployments, [w], WriteKey, PutDeployment)
                  == s.deployments[WriteKey(w) := PutDeployment(Lookup(s.deployments, WriteKey(w)), w)]
    { FoldOne(s.deployments, w, WriteKey, PutDeployment); }
    forall w ensures Fold(s.leases, [w], LeaseKey, PutLease) == s.leases[LeaseKey(w) := PutLease(Lookup(s.leases,
           LeaseKey(w)), w)]
    { FoldOne(s.leases, w, LeaseKey, PutLease); }
    forall w ensures Fold(s.bids, [w], BidKey, PutBid) == s.bids[BidKey(w) := PutBid(Lookup(s.bids, BidKey(w)), w)]
    { FoldOne(s.bids, w, BidKey, PutBid); }
  }

  // ---------------------------------------------------------- writes in order

  datatype Write = OfDeployment(deployment: DeploymentWrite) | OfLease(lease: LeaseWrite) | OfBid(bid: BidWrite)

  // A write and how many queries were asked before it.
  datatype Planned = Planned(write: Write, at: nat)

  function One(w: Write): Batch {
    match w
    case OfDeployment(d) => Batch([d], [], [])
    case OfLease(l) => Batch([], [l], [])
    case OfBid(b) => Batch([], [], [b])
  }

  // A sequence of writes, bucket by bucket.
  ghost function Written(order: seq<Planned>): Batch {
    if order == [] then NoWrites else Append(Written(order[..|order| - 1]), One(order[|order| - 1].write))
  }

  lemma {:induction false} WrittenConcat(a: seq<Planned>, b: seq<Planned>)
    ensures Written(a + b) == Append(Written(a), Written(b))
    decreases |b|
  {
    if b == [] {
      assert a + b == a;
    } else {
      var front := b[..|b| - 1];
      assert (a + b)[..|a + b| - 1] == a + front;
      WrittenConcat(a, front);
    }
  }

  lemma WrittenOne(order: seq<Planned>, p: Planned)
    ensures Written(order + [p]) == Append(Written(order), One(p.write))
  {
    assert (order + [p])[..|order|] == order;
  }

  // ------------------------------------------- what a node's answers prescribe

  // The writes that the answers to the queries from a moment on prescribe, up to
  // a query that is not answered; the moment after the last query asked; and
  // whether all were answered.
  datatype Plan = Plan(order: seq<Planned>, next: nat, complete: bool)

  function LeaseOrder(ls: seq<LeaseRecord>, now: int, at: nat): seq<Planned> {
    seq(|ls|, i requires 0 <= i < |ls| => Planned(OfLease(LeaseReported(ls[i], now)), at))
  }

  function BidOrder(bs: seq<BidRecord>, now: int, at: nat): seq<Planned> {
    seq(|bs|, i requires 0 <= i < |bs| => Planned(OfBid(BidReported(bs[i], now)), at))
  }

  ghost function LeasePlan(node: NodeScript, q: nat, owner: string, dseq: nat, now: int): Plan {
    var answer := node(q, LeasesOf(owner, dseq));
    if answer.Ok? && answer.value.Leases? then Plan(LeaseOrder(answer.value.leases, now, q + 1), q + 1, true)
    else Plan([], q + 1, false)
  }

  ghost function BidPlan(node: NodeScript, q: nat, owner: string, dseq: nat, now: int): Plan {
    var answer := node(q, BidsOf(owner, dseq));
    if answer.Ok? && answer.value.Bids? then Plan(BidOrder(answer.value.bids, now, q + 1), q + 1, true)
    else Plan([], q + 1, false)
  }

  // One plan and, if it is answered to its end, another.
  function Join(first: Plan, second: Plan): Plan {
    if first.complete then Plan(first.order + second.order, second.next, second.complete) else first
  }

  ghost function MarketPlan(node: NodeScript, q: nat, owner: string, dseq: nat, now: int): Plan {
    var leases := LeasePlan(node, q, owner, dseq, now);
    Join(leases, BidPlan(node, leases.next, owner, dseq, now))
  }

  function RecordPlan(d: DeploymentRecord, now: int, q: nat): Plan {
    Plan([Planned(OfDeployment(Reported(d, now)), q)], q, true)
  }

  ghost function DeploymentPlan(node: NodeScript, q: nat, owner: string, d: DeploymentRecord, now: int): Plan {
    Join(RecordPlan(d, now, q), MarketPlan(node, q, owner, d.dseq, now))
  }

  // The deployments of one owner, in the order answered.
  ghost function DeploymentsPlan(node: NodeScript, q: nat, owner: string, ds: seq<DeploymentRecord>, now: int): Plan {
    if ds == [] then Plan([], q, true)
    else
      var front := DeploymentsPlan(node, q, owner, ds[..|ds| - 1], now);
      Join(front, DeploymentPlan(node, front.next, owner, ds[|ds| - 1], now))
  }

  ghost function OwnerPlan(node: NodeScript, q: nat, owner: string, now: int): Plan {
    var answer := node(q, DeploymentsOf(owner));
    if answer.Ok? && answer.value.Deployments? then DeploymentsPlan(node, q + 1, owner, answer.value.deployments, now)
    else Plan([], q + 1, false)
  }

  ghost function FullPlan(node: NodeScript, q: nat, owners: seq<string>, now: int): Plan {
    if owners == [] then Plan([], q, true)
    else
      var front := FullPlan(node, q, owners[..|owners| - 1], now);
      Join(front, OwnerPlan(node, front.next, owners[|owners| - 1], now))
  }

  // ------------------------------------------------------ how far a run gets

  // A run that was to carry out a plan, reading and then writing each record.
  // If every access to the store worked, it wrote the whole plan and stopped
  // where the plan does, and succeeded exactly when the plan is complete.
  // Otherwise the failed access was the last, it wrote what the plan has before
  // the record at hand, and had asked the queries before that record.
  ghost predicate Outcome(ok: bool, done: seq<Planned>, plan: Plan, queries: nat, works: nat -> bool, from: nat,
                          to: nat) {
    && from <= to
    && if AllWorked(works, from, to) then
         ok == plan.complete && done == plan.order && queries == plan.next && to == from + 2 * |done|
       else
         && !ok && StoppedAt(works, from, to)
         && |done| < |plan.order| && done == plan.order[..|done|] && queries == plan.order[|done|].at
         && 2 * |done| < to - from <= 2 * |done| + 2
  }

  lemma OutcomeStops(done: seq<Planned>, first: Plan, second: Plan, queries: nat, works: nat -> bool, from: nat,
                     to: nat)
    requires Outcome(false, done, first, queries, works, from, to)
    ensures Outcome(false, done, Join(first, second), queries, works, from, to)
  {
    hide AllWorked, StoppedAt;
    if first.complete { assert (first.order + second.order)[..|done|] == first.order[..|done|]; }
  }

  lemma WorkedThrough(works: nat -> bool, from: nat, between: nat, to: nat)
    requires from <= between <= to && AllWorked(works, from, between)
    ensures AllWorked(works, from, to) <==> AllWorked(works, between, to)
    ensures StoppedAt(works, between, to) ==> StoppedAt(works, from, to)
  {
  }

  lemma OutcomeThen(ok: bool, done: seq<Planned>, more: seq<Planned>, first: Plan, middle: nat, second: Plan,
                    queries: nat,
                    works: nat -> bool, from: nat, between: nat, to: nat)
    requires Outcome(true, done, first, middle, works, from, between)
    requires Outcome(ok, more, second, queries, works, between, to)
    ensures first.next == middle
    ensures Outcome(ok, done + more, Join(first, second), queries, works, from, to)
  {
    WorkedThrough(works, from, between, to);
    hide AllWorked, StoppedAt;
    var all := first.order + second.order;
    assert |more| < |second.order| ==> all[..|done + more|] == first.order + second.order[..|more|];
  }

  lemma OutcomeNext(done: seq<Planned>, first: Plan, middle: nat, works: nat -> bool, from: nat, between: nat)
    requires Outcome(true, done, first, middle, works, from, between)
    ensures first.next == middle && first.complete
  {
  }

  // A query that is not answered ends the run before any access.
  lemma OutcomeRefused(queries: nat, works: nat -> bool, at: nat)
    ensures Outcome(false, [], Plan([], queries, false), queries, works, at, at)
    ensures Outcome(true, [], Plan([], queries, true), queries, works, at, at)
  {
  }

  // A list of records, all answered by one query, written one by one.
  lemma OutcomeGrows(done: seq<Planned>, order: seq<Planned>, q: nat, ok: bool, works: nat -> bool, from: nat,
                     between: nat, to: nat)
    requires |done| < |order| && done == order[..|done|] && order[|done|].at == q
    requires from <= between && AllWorked(works, from, between) && between == from + 2 * |done|
    requires if ok then AllWorked(works, between, to) && to == between + 2
             else StoppedAt(works, between, to) && between < to <= between + 2
    ensures AllWorked(works, from, to) <==> ok
    ensures !ok ==> Outcome(false, done, Plan(order, q, true), q, works, from, to)
  {
    WorkedThrough(works, from, between, to);
  }

  lemma {:induction false} DeploymentsStop(node: NodeScript, q: nat, owner: string, ds: seq<DeploymentRecord>, k: nat,
                                           now: int,
                                           done: seq<Planned>, queries: nat, works: nat -> bool, from: nat, to: nat)
    requires k <= |ds|
    requires Outcome(false, done, DeploymentsPlan(node, q, owner, ds[..k], now), queries, works, from, to)
    ensures Outcome(false, done, DeploymentsPlan(node, q, owner, ds, now), queries, works, from, to)
    decreases |ds|
  {
    hide Outcome;
    if k == |ds| {
      assert ds[..k] == ds;
    } else {
      var front := ds[..|ds| - 1];
      assert front[..k] == ds[..k];
      DeploymentsStop(node, q, owner, front, k, now, done, queries, works, from, to);
      var plan := DeploymentsPlan(node, q, owner, front, now);
      OutcomeStops(done, plan, DeploymentPlan(node, plan.next, owner, ds[|ds| - 1], now), queries, works, from, to);
    }
  }

  lemma {:induction false} OwnersStop(node: NodeScript, q: nat, owners: seq<string>, k: nat, now: int,
                                      done: seq<Planned>, queries: nat, works: nat -> bool, from: nat, to: nat)
    requires k <= |owners| && Outcome(false, done, FullPlan(node, q, owners[..k], now), queries, works, from, to)
    ensures Outcome(false, done, FullPlan(node, q, owners, now), queries, works, from, to)
    decreases |owners|
  {
    hide Outcome;
    if k == |owners| {
      assert owners[..k] == owners;
    } else {
      var front := owners[..|owners| - 1];
      assert front[..k] == owners[..k];
      OwnersStop(node, q, front, k, now, done, queries, works, from, to);
      var plan := FullPlan(node, q, front, now);
      OutcomeStops(done, plan, OwnerPlan(node, plan.next, owners[|owners| - 1], now), queries, works, from, to);
    }
  }

  lemma DeploymentsPlanned(node: NodeScript, q: nat, owner: string, ds: seq<DeploymentRecord>, i: nat, now: int,
                           ok: bool,
                           done: seq<Planned>, one: seq<Planned>, middle: nat, queries: nat,
                           works: nat -> bool, from: nat, between: nat, to: nat)
    requires i < |ds|
    requires Outcome(true, done, DeploymentsPlan(node, q, owner, ds[..i], now), middle, works, from, between)
    requires Outcome(ok, one, DeploymentPlan(node, middle, owner, ds[i], now), queries, works, between, to)
    ensures Outcome(ok, done + one, DeploymentsPlan(node, q, owner, if ok then ds[..i + 1]
            else ds, now), queries, works, from, to)
  {
    hide Outcome, DeploymentPlan;
    var front := DeploymentsPlan(node, q, owner, ds[..i], now);
    OutcomeThen(ok, done, one, front, middle, DeploymentPlan(node, middle, owner, ds[i], now), queries, works, from,
      between, to);
    assert ds[..i + 1][..i] == ds[..i];
    if !ok { DeploymentsStop(node, q, owner, ds, i + 1, now, done + one, queries, works, from, to); }
  }

  lemma OwnersPlanned(node: NodeScript, q: nat, owners: seq<string>, i: nat, now: int, ok: bool,
                      done: seq<Planned>, one: seq<Planned>, middle: nat, queries: nat,
                      works: nat -> bool, from: nat, between: nat, to: nat)
    requires i < |owners|
    requires Outcome(true, done, FullPlan(node, q, owners[..i], now), middle, works, from, between)
    requires Outcome(ok, one, OwnerPlan(node, middle, owners[i], now), queries, works, between, to)
    ensures Outcome(ok, done + one, FullPlan(node, q, if ok then owners[..i + 1]
            else owners, now), queries, works, from, to)
  {
    hide Outcome, OwnerPlan;
    var front := FullPlan(node, q, owners[..i], now);
    OutcomeThen(ok, done, one, front, middle, OwnerPlan(node, middle, owners[i], now), queries, works, from, between,
      to);
    assert owners[..i + 1][..i] == owners[..i];
    if !ok { OwnersStop(node, q, owners, i + 1, now, done + one, queries, works, from, to); }
  }

  // Whatever the outcome, what was written starts the plan.
  lemma OutcomePrefix(ok: bool, done: seq<Planned>, plan: Plan, queries: nat, works: nat -> bool, from: nat, to: nat)
    requires Outcome(ok, done, plan, queries, works, from, to)
    ensures done <= plan.order
  {
  }

  // ----------------------------------------------- where planned writes come from

  ghost predicate Answered(node: NodeScript, tracked: set<string>, d: DeploymentRecord) {
    exists n: nat, owner :: owner in tracked && node(n, DeploymentsOf(owner)).Ok?
      && node(n, DeploymentsOf(owner)).value.Deployments? && d in node(n, DeploymentsOf(owner)).value.deployments
  }

  ghost predicate AnsweredLease(node: NodeScript, tracked: set<string>, l: LeaseRecord) {
    exists n: nat, owner, dseq :: owner in tracked && node(n, LeasesOf(owner, dseq)).Ok?
      && node(n, LeasesOf(owner, dseq)).value.Leases? && l in node(n, LeasesOf(owner, dseq)).value.leases
  }

  ghost predicate AnsweredBid(node: NodeScript, tracked: set<string>, b: BidRecord) {
    exists n: nat, owner, dseq :: owner in tracked && node(n, BidsOf(owner, dseq)).Ok?
      && node(n, BidsOf(owner, dseq)).value.Bids? && b in node(n, BidsOf(owner, dseq)).value.bids
  }

  // A write reports what was in an answer about a tracked owner.
  ghost predicate Sourced(node: NodeScript, tracked: set<string>, w: Write) {
    match w
    case OfDeployment(d) => d.Reported? && Answered(node, tracked, d.record)
    case OfLease(l) => l.LeaseReported? && AnsweredLease(node, tracked, l.record)
    case OfBid(b) => b.BidReported? && AnsweredBid(node, tracked, b.record)
  }

  ghost predicate AllSourced(node: NodeScript, tracked: set<string>, order: seq<Planned>) {
    forall i :: 0 <= i < |order| ==> Sourced(node, tracked, order[i].write)
  }

  lemma MarketSourced(node: NodeScript, tracked: set<string>, q: nat, owner: string, dseq: nat, now: int)
    requires owner in tracked
    ensures AllSourced(node, tracked, MarketPlan(node, q, owner, dseq, now).order)
  {
    var leases := LeasePlan(node, q, owner, dseq, now);
    var bids := BidPlan(node, leases.next, owner, dseq, now);
    assert AllSourced(node, tracked, leases.order);
    assert AllSourced(node, tracked, bids.order);
  }

  lemma {:induction false} DeploymentsSourced(node: NodeScript, tracked: set<string>, q: nat, owner: string,
                                              ds: seq<DeploymentRecord>, now: int)
    requires owner in tracked && forall d :: d in ds ==> Answered(node, tracked, d)
    ensures AllSourced(node, tracked, DeploymentsPlan(node, q, owner, ds, now).order)
    decreases |ds|
  {
    hide Answered, AnsweredLease, AnsweredBid, MarketPlan;
    if ds != [] {
      var front, d := DeploymentsPlan(node, q, owner, ds[..|ds| - 1], now), ds[|ds| - 1];
      DeploymentsSourced(node, tracked, q, owner, ds[..|ds| - 1], now);
      MarketSourced(node, tracked, front.next, owner, d.dseq, now);
      assert AllSourced(node, tracked, DeploymentPlan(node, front.next, owner, d, now).order);
    }
  }

  // Everything a run is to write comes from answers about tracked owners.
  lemma {:induction false} PlanSourced(node: NodeScript, tracked: set<string>, q: nat, owners: seq<string>, now: int)
    requires forall i :: 0 <= i < |owners| ==> owners[i] in tracked
    ensures AllSourced(node, tracked, FullPlan(node, q, owners, now).order)
    decreases |owners|
  {
    hide Sourced;
    if owners != [] {
      var owner := owners[|owners| - 1];
      var front := FullPlan(node, q, owners[..|owners| - 1], now);
      PlanSourced(node, tracked, q, owners[..|owners| - 1], now);
      OwnerSourced(node, tracked, front.next, owner, now);
    }
  }

  lemma OwnerSourced(node: NodeScript, tracked: set<string>, q: nat, owner: string, now: int)
    requires owner in tracked
    ensures AllSourced(node, tracked, OwnerPlan(node, q, owner, now).order)
  {
    var answer := node(q, DeploymentsOf(owner));
    if answer.Ok? && answer.value.Deployments? {
      forall d | d in answer.value.deployments ensures Answered(node, tracked, d) { }
      DeploymentsSourced(node, tracked, q + 1, owner, answer.value.deployments, now);
    }
  }

  // Bucket by bucket.
  ghost predicate FromNode(node: NodeScript, tracked: set<string>, b: Batch) {
    && (forall i :: 0 <= i < |b.deployments| ==> Sourced(node, tracked, OfDeployment(b.deployments[i])))
    && (forall i :: 0 <= i < |b.leases| ==> Sourced(node, tracked, OfLease(b.leases[i])))
    && (forall i :: 0 <= i < |b.bids| ==> Sourced(node, tracked, OfBid(b.bids[i])))
  }

  lemma {:induction false} WrittenFromNode(node: NodeScript, tracked: set<string>, order: seq<Planned>)
    requires AllSourced(node, tracked, order)
    ensures FromNode(node, tracked, Written(order))
    decreases |order|
  {
    hide Sourced;
    if order != [] { WrittenFromNode(node, tracked, order[..|order| - 1]); }
  }

  // A run of a reconciliation, complete or cut short.
  ghost predicate Reconciled(node: NodeScript, tracked: set<string>, q: nat, now: int, done: seq<Planned>) {
    done <= FullPlan(node, q, SortedKeys(tracked), now).order
  }

  lemma ReconciledFromNode(node: NodeScript, tracked: set<string>, q: nat, now: int, done: seq<Planned>)
    requires Reconciled(node, tracked, q, now, done)
    ensures FromNode(node, tracked, Written(done))
  {
    var owners := SortedKeys(tracked);
    SortedKeysTracked(tracked);
    PlanSourced(node, tracked, q, owners, now);
    hide FullPlan, Sourced;
    var plan := FullPlan(node, q, owners, now);
    assert forall i :: 0 <= i < |done| ==> done[i] == plan.order[i];
    WrittenFromNode(node, tracked, done);
  }

  lemma SortedKeysTracked(tracked: set<string>)
    ensures forall i :: 0 <= i < |SortedKeys(tracked)| ==> SortedKeys(tracked)[i] in tracked
  {
    var keys := SortedKeys(tracked);
    forall i | 0 <= i < |keys| ensures keys[i] in tracked { assert keys[i] in multiset(keys); }
  }

  // ------------------------------------------------------- a chain that is still

  lemma {:induction false} LeasesWritten(ls: seq<LeaseRecord>, now: int, at: nat)
    ensures Written(LeaseOrder(ls, now, at)) == Batch([], LeaseReports(ls, now), [])
    decreases |ls|
  {
    if ls != [] {
      var front := ls[..|ls| - 1];
      assert LeaseOrder(ls, now, at)[..|ls| - 1] == LeaseOrder(front, now, at);
      LeasesWritten(front, now, at);
      assert LeaseReports(ls, now) == LeaseReports(front, now) + [LeaseReported(ls[|ls| - 1], now)];
    }
  }

  lemma {:induction false} BidsWritten(bs: seq<BidRecord>, now: int, at: nat)
    ensures Written(BidOrder(bs, now, at)) == Batch([], [], BidReports(bs, now))
    decreases |bs|
  {
    if bs != [] {
      var front := bs[..|bs| - 1];
      assert BidOrder(bs, now, at)[..|bs| - 1] == BidOrder(front, now, at);
      BidsWritten(front, now, at);
      assert BidReports(bs, now) == BidReports(front, now) + [BidReported(bs[|bs| - 1], now)];
    }
  }

  lemma SteadyDeployment(node: NodeScript, works: nat -> bool, chain: Chain, q: nat, owner: string,
                         d: DeploymentRecord, now: int)
    requires Steady(node, works, chain)
    ensures DeploymentPlan(node, q, owner, d, now).complete
    ensures Written(DeploymentPlan(node, q, owner, d, now).order) == OneDeployment(chain, owner, d, now)
  {
    var leases, bids := chain.leases(owner, d.dseq), chain.bids(owner, d.dseq);
    assert node(q, LeasesOf(owner, d.dseq)) == Ok(Truth(chain, LeasesOf(owner, d.dseq)));
    assert node(q + 1, BidsOf(owner, d.dseq)) == Ok(Truth(chain, BidsOf(owner, d.dseq)));
    var first, second := LeaseOrder(leases, now, q + 1), BidOrder(bids, now, q + 2);
    var record := RecordPlan(d, now, q).order;
    assert DeploymentPlan(node, q, owner, d, now) == Plan(record + (first + second), q + 2, true);
    hide Steady, LeaseOrder, BidOrder, LeaseReports, BidReports;
    LeasesWritten(leases, now, q + 1);
    BidsWritten(bids, now, q + 2);
    WrittenConcat(first, second);
    WrittenConcat(record, first + second);
    WrittenOne([], record[0]);
    assert [] + [record[0]] == record;
  }

  lemma {:induction false} SteadyDeployments(node: NodeScript, works: nat -> bool, chain: Chain, q: nat, owner: string,
                                             ds: seq<DeploymentRecord>, now: int)
    requires Steady(node, works, chain)
    ensures DeploymentsPlan(node, q, owner, ds, now).complete
    ensures Written(DeploymentsPlan(node, q, owner, ds, now).order) == OneOwner(chain, owner, ds, now)
    decreases |ds|
  {
    hide Steady, DeploymentPlan, OneDeployment;
    if ds != [] {
      var front, d := DeploymentsPlan(node, q, owner, ds[..|ds| - 1], now), ds[|ds| - 1];
      SteadyDeployments(node, works, chain, q, owner, ds[..|ds| - 1], now);
      SteadyDeployment(node, works, chain, front.next, owner, d, now);
      WrittenConcat(front.order, DeploymentPlan(node, front.next, owner, d, now).order);
    }
  }

  lemma SteadyOwner(node: NodeScript, works: nat -> bool, chain: Chain, q: nat, owner: string, now: int)
    requires Steady(node, works, chain)
    ensures OwnerPlan(node, q, owner, now).complete
    ensures Written(OwnerPlan(node, q, owner, now).order) == OneOwner(chain, owner, chain.deployments(owner), now)
  {
    assert node(q, DeploymentsOf(owner)) == Ok(Truth(chain, DeploymentsOf(owner)));
    hide DeploymentsPlan, OneOwner;
    SteadyDeployments(node, works, chain, q + 1, owner, chain.deployments(owner), now);
  }

  // A chain that stands still prescribes everything on it.
  lemma {:induction false} SteadyPlan(node: NodeScript, works: nat -> bool, chain: Chain, q: nat, owners: seq<string>,
                                      now: int)
    requires Steady(node, works, chain)
    ensures FullPlan(node, q, owners, now).complete
    ensures Written(FullPlan(node, q, owners, now).order) == Everything(chain, owners, now)
    decreases |owners|
  {
    hide Steady, OwnerPlan, OneOwner;
    if owners != [] {
      var front := FullPlan(node, q, owners[..|owners| - 1], now);
      SteadyPlan(node, works, chain, q, owners[..|owners| - 1], now);
      SteadyOwner(node, works, chain, front.next, owners[|owners| - 1], now);
      WrittenConcat(front.order, OwnerPlan(node, front.next, owners[|owners| - 1], now).order);
    }
  }

  // And lets a whole run through.
  lemma SteadyNow(node: NodeScript, works: nat -> bool, q: nat, owners: seq<string>, now: int)
    ensures forall chain :: Steady(node, works, chain) ==>
              && node(q, Height) == Ok(HeightIs(chain.height))
              && FullPlan(node, q + 1, owners, now).complete
              && Written(FullPlan(node, q + 1, owners, now).order) == Everything(chain, owners, now)
              && forall n: nat :: works(n)
  {
    forall chain | Steady(node, works, chain)
      ensures node(q, Height) == Ok(HeightIs(chain.height)) && FullPlan(node, q + 1, owners, now).complete
              && Written(FullPlan(node, q + 1, owners, now).order) == Everything(chain, owners, now)
    {
      assert Truth(chain, Height) == HeightIs(chain.height);
      SteadyPlan(node, works, chain, q + 1, owners, now);
    }
  }

  // Heights a node reports over time, never falling.
  ghost predicate HeightsRise(node: NodeScript, heightAt: nat -> int) {
    && (forall n: nat :: node(n, Height) == Ok(HeightIs(heightAt(n))))
    && forall m: nat, n: nat :: m <= n ==> heightAt(m) <= heightAt(n)
  }

  lemma HeightRises(node: NodeScript, heightAt: nat -> int, q: nat)
    requires HeightsRise(node, heightAt)
    ensures node(q, Height) == Ok(HeightIs(heightAt(q))) && forall m: nat :: q <= m ==> heightAt(q) <= heightAt(m)
  {
  }

  // A height read first is one every later moment has reached.
  lemma HeightsAbove(node: NodeScript, q: nat)
    ensures forall heightAt: nat -> int :: HeightsRise(node, heightAt) ==>
              node(q, Height) == Ok(HeightIs(heightAt(q))) && forall m: nat :: q <= m ==> heightAt(q) <= heightAt(m)
  {
    forall heightAt: nat -> int | HeightsRise(node, heightAt)
      ensures node(q, Height) == Ok(HeightIs(heightAt(q))) && forall m: nat :: q <= m ==> heightAt(q) <= heightAt(m)
    {
      HeightRises(node, heightAt, q);
    }
  }
}
